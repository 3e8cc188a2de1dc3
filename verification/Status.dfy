/**
 The four status machines. A status text is one of a closed list, so a stored
 status is an enumeration; the text of a request is looked up with `Named`.
 */
module Status {
  import opened Outcomes

  datatype Entity = Bridge | Inspection | Defect | Priority

  datatype Status =
    | Active | Restricted | Closed | Retired
    | Planned | Running | Review | Completed
    | New | Verified | Monitoring | Mitigated
    | Draft | Observe | Restrict | Urgent

  type Graph = map<Status, set<Status>>

  const BRIDGE_TRANSITIONS: Graph := map[
    Active := {Restricted, Closed},
    Restricted := {Closed, Retired, Active},
    Closed := {Retired, Restricted},
    Retired := {Closed}]

  const INSPECTION_TRANSITIONS: Graph := map[
    Planned := {Running, Review},
    Running := {Review, Completed, Planned},
    Review := {Completed, Running},
    Completed := {Review}]

  const DEFECT_TRANSITIONS: Graph := map[
    New := {Verified, Monitoring},
    Verified := {Monitoring, Mitigated, New},
    Monitoring := {Mitigated, Closed, Verified},
    Mitigated := {Closed, Monitoring},
    Closed := {Mitigated}]

  const PRIORITY_TRANSITIONS: Graph := map[
    Draft := {Observe, Restrict, Urgent},
    Observe := {},
    Restrict := {},
    Urgent := {}]

  function Transitions(e: Entity): Graph {
    match e
    case Bridge => BRIDGE_TRANSITIONS
    case Inspection => INSPECTION_TRANSITIONS
    case Defect => DEFECT_TRANSITIONS
    case Priority => PRIORITY_TRANSITIONS
  }

  predicate CanTransition(graph: Graph, from: Status, to: Status) {
    from in graph && to in graph[from]
  }

  /** The statuses of an entity, in the order in which its graph lists them. */
  function Statuses(e: Entity): seq<Status> {
    match e
    case Bridge => [Active, Restricted, Closed, Retired]
    case Inspection => [Planned, Running, Review, Completed]
    case Defect => [New, Verified, Monitoring, Mitigated, Closed]
    case Priority => [Draft, Observe, Restrict, Urgent]
  }

  /** The status is one of the entity's. */
  predicate HasStatus(e: Entity, s: Status) {
    match e
    case Bridge => s == Active || s == Restricted || s == Closed || s == Retired
    case Inspection => s == Planned || s == Running || s == Review || s == Completed
    case Defect => s == New || s == Verified || s == Monitoring || s == Mitigated || s == Closed
    case Priority => s == Draft || IsFinal(s)
  }

  function Initial(e: Entity): Status {
    match e
    case Bridge => Active
    case Inspection => Planned
    case Defect => New
    case Priority => Draft
  }

  /** A final priority decision has no way out of its status. */
  predicate IsFinal(s: Status) {
    s == Observe || s == Restrict || s == Urgent
  }

  function Label(s: Status): string {
    match s
    case Active => "active" case Restricted => "restricted"
    case Closed => "closed" case Retired => "retired"
    case Planned => "planned" case Running => "running"
    case Review => "review" case Completed => "completed"
    case New => "new" case Verified => "verified"
    case Monitoring => "monitoring" case Mitigated => "mitigated"
    case Draft => "draft" case Observe => "observe"
    case Restrict => "restrict" case Urgent => "urgent"
  }

  const ALL: seq<Status> := [
    Active, Restricted, Closed, Retired, Planned, Running, Review, Completed,
    New, Verified, Monitoring, Mitigated, Draft, Observe, Restrict, Urgent]

  function Search(text: string, candidates: seq<Status>): Option<Status> {
    if candidates == [] then None
    else if Label(candidates[0]) == text then Some(candidates[0])
    else Search(text, candidates[1..])
  }

  /** The status a text names, if any. */
  function Named(text: string): Option<Status> {
    Search(text, ALL)
  }

  lemma {:induction false} SearchFinds(text: string, candidates: seq<Status>)
    ensures var r := Search(text, candidates);
            if r.Some? then r.value in candidates && Label(r.value) == text
            else forall s :: s in candidates ==> Label(s) != text
  {
    if candidates != [] {
      SearchFinds(text, candidates[1..]);
    }
  }

  lemma ListedInAll(s: Status)
    ensures s in ALL
  {
    match s
    case Active => assert ALL[0] == s; case Restricted => assert ALL[1] == s;
    case Closed => assert ALL[2] == s; case Retired => assert ALL[3] == s;
    case Planned => assert ALL[4] == s; case Running => assert ALL[5] == s;
    case Review => assert ALL[6] == s; case Completed => assert ALL[7] == s;
    case New => assert ALL[8] == s; case Verified => assert ALL[9] == s;
    case Monitoring => assert ALL[10] == s; case Mitigated => assert ALL[11] == s;
    case Draft => assert ALL[12] == s; case Observe => assert ALL[13] == s;
    case Restrict => assert ALL[14] == s; case Urgent => assert ALL[15] == s;
  }

  /** A text names a status exactly when it is that status's label. */
  lemma NamedIffLabel(text: string, s: Status)
    ensures Named(text) == Some(s) <==> Label(s) == text
  {
    SearchFinds(text, ALL);
    ListedInAll(s);
    if Label(s) == text {
      LabelsDiffer(s, Named(text).value);
    }
  }

  /** The label of a status is nobody else's label. */
  lemma LabelsDiffer(s: Status, t: Status)
    requires Label(s) == Label(t)
    ensures s == t
  {
    var x, y := Label(s), Label(t);
    assert |x| == |y|;
    assert x[0] == y[0] && x[1] == y[1] && x[2] == y[2];
  }

  function Labels(statuses: seq<Status>): seq<string> {
    seq(|statuses|, i requires 0 <= i < |statuses| => Label(statuses[i]))
  }

  /** The texts of each machine's statuses in the order of its graph; the first is the one records are created in. */
  lemma StatusTexts(e: Entity)
    ensures Labels(Statuses(Bridge)) == ["active", "restricted", "closed", "retired"]
    ensures Labels(Statuses(Inspection)) == ["planned", "running", "review", "completed"]
    ensures Labels(Statuses(Defect)) == ["new", "verified", "monitoring", "mitigated", "closed"]
    ensures Labels(Statuses(Priority)) == ["draft", "observe", "restrict", "urgent"]
    ensures Statuses(e)[0] == Initial(e)
  {
  }

  /** Every edge stays inside the entity's list of statuses. */
  lemma EdgesStayInside(e: Entity, from: Status, to: Status)
    requires CanTransition(Transitions(e), from, to)
    ensures HasStatus(e, from) && HasStatus(e, to)
  {
    match e
    case Bridge => assert from in BRIDGE_TRANSITIONS;
    case Inspection => assert from in INSPECTION_TRANSITIONS;
    case Defect => assert from in DEFECT_TRANSITIONS;
    case Priority => assert from in PRIORITY_TRANSITIONS;
  }

  /** A decision leaves only the draft status, and only for a final one. */
  lemma DecisionEdges(from: Status, to: Status)
    ensures CanTransition(PRIORITY_TRANSITIONS, from, to) <==> from == Draft && IsFinal(to)
  {
  }
}
