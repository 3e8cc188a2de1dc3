/**
 How far apart two statuses of a cyclic machine are. The three graphs are the
 same graph over lists of different length: a move goes one step back, one
 step on, or two steps on.
 */
module Distance {
  import opened Status

  predicate IsCyclic(e: Entity) {
    !e.Priority?
  }

  /** `path` is a run of allowed moves; a single status is a run of none. */
  ghost predicate IsWalk(e: Entity, path: seq<Status>) {
    && path != []
    && HasStatus(e, path[0])
    && forall i :: 0 <= i < |path| - 1 ==> CanTransition(Transitions(e), path[i], path[i + 1])
  }

  function Place(e: Entity, s: Status): (i: nat)
    requires HasStatus(e, s)
    ensures i < |Statuses(e)| && Statuses(e)[i] == s
  {
    match s
    case Active => 0 case Restricted => 1 case Retired => 3
    case Closed => if e.Bridge? then 2 else 4
    case Planned => 0 case Running => 1 case Review => 2 case Completed => 3
    case New => 0 case Verified => 1 case Monitoring => 2 case Mitigated => 3
    case Draft => 0 case Observe => 1 case Restrict => 2 case Urgent => 3
  }

  /** The list holds exactly the entity's statuses, each at its place. */
  lemma ListedIsAtPlace(e: Entity, i: nat)
    requires i < |Statuses(e)|
    ensures HasStatus(e, Statuses(e)[i]) && Place(e, Statuses(e)[i]) == i
  {
    match e
    case Bridge => assert i == 0 || i == 1 || i == 2 || i == 3;
    case Inspection => assert i == 0 || i == 1 || i == 2 || i == 3;
    case Defect => assert i == 0 || i == 1 || i == 2 || i == 3 || i == 4;
    case Priority => assert i == 0 || i == 1 || i == 2 || i == 3;
  }

  /** The least number of moves from place i to place j. */
  function Moves(i: int, j: int): nat {
    if i <= j then (j - i + 1) / 2 else i - j
  }

  /** An allowed move goes one place back, one place on or two places on. */
  predicate IsShort(move: int) {
    move == -1 || move == 1 || move == 2
  }

  lemma BridgeMoves(from: Status, to: Status)
    requires HasStatus(Bridge, from) && HasStatus(Bridge, to)
    ensures CanTransition(BRIDGE_TRANSITIONS, from, to) <==> IsShort(Place(Bridge, to) - Place(Bridge, from))
  {
    match from case Active => case Restricted => case Closed => case Retired =>
  }

  lemma InspectionMoves(from: Status, to: Status)
    requires HasStatus(Inspection, from) && HasStatus(Inspection, to)
    ensures CanTransition(INSPECTION_TRANSITIONS, from, to)
       <==> IsShort(Place(Inspection, to) - Place(Inspection, from))
  {
    match from case Planned => case Running => case Review => case Completed =>
  }

  lemma DefectMoves(from: Status, to: Status)
    requires HasStatus(Defect, from) && HasStatus(Defect, to)
    ensures CanTransition(DEFECT_TRANSITIONS, from, to) <==> IsShort(Place(Defect, to) - Place(Defect, from))
  {
    match from case New => case Verified => case Monitoring => case Mitigated => case Closed =>
  }

  /** Allowed moves are exactly the short moves within the list. */
  lemma MoveIsShort(e: Entity, from: Status, to: Status)
    requires IsCyclic(e) && HasStatus(e, from) && HasStatus(e, to)
    ensures CanTransition(Transitions(e), from, to) <==> IsShort(Place(e, to) - Place(e, from))
  {
    match e
    case Bridge => BridgeMoves(from, to);
    case Inspection => InspectionMoves(from, to);
    case Defect => DefectMoves(from, to);
  }

  lemma {:induction false} WalkStaysInside(e: Entity, path: seq<Status>, k: nat)
    requires IsWalk(e, path) && k < |path|
    ensures HasStatus(e, path[k])
  {
    if k > 0 {
      EdgesStayInside(e, path[k - 1], path[k]);
    }
  }

  /** No run is shorter than the distance between its ends. */
  lemma {:induction false} WalkIsNoShorter(e: Entity, path: seq<Status>)
    requires IsCyclic(e) && IsWalk(e, path)
    ensures HasStatus(e, path[0]) && HasStatus(e, path[|path| - 1])
    ensures |path| - 1 >= Moves(Place(e, path[0]), Place(e, path[|path| - 1]))
  {
    WalkStaysInside(e, path, |path| - 1);
    if |path| > 1 {
      var front := path[..|path| - 1];
      WalkIsNoShorter(e, front);
      MoveIsShort(e, front[|front| - 1], path[|path| - 1]);
    }
  }

  /** A shortest run: two places at a time while there is room, then one; or back one at a time. */
  function Route(e: Entity, i: nat, j: nat): seq<Status>
    requires i < |Statuses(e)| && j < |Statuses(e)|
    decreases if i <= j then j - i else i - j
  {
    var here := [Statuses(e)[i]];
    if i == j then here
    else if i + 2 <= j then here + Route(e, i + 2, j)
    else if i < j then here + Route(e, i + 1, j)
    else here + Route(e, i - 1, j)
  }

  lemma WalkWithFirst(e: Entity, first: Status, path: seq<Status>)
    requires IsWalk(e, path) && HasStatus(e, first) && CanTransition(Transitions(e), first, path[0])
    ensures IsWalk(e, [first] + path)
  {
  }

  /** The distance is reached: as many moves as `Moves` says are enough. */
  lemma {:induction false} RouteIsShortest(e: Entity, i: nat, j: nat)
    requires IsCyclic(e) && i < |Statuses(e)| && j < |Statuses(e)|
    ensures var path := Route(e, i, j);
            && IsWalk(e, path)
            && path[0] == Statuses(e)[i] && path[|path| - 1] == Statuses(e)[j]
            && |path| - 1 == Moves(i, j)
    decreases if i <= j then j - i else i - j
  {
    ListedIsAtPlace(e, i);
    if i != j {
      var next := if i + 2 <= j then i + 2 else if i < j then i + 1 else i - 1;
      RouteIsShortest(e, next, j);
      ListedIsAtPlace(e, next);
      MoveIsShort(e, Statuses(e)[i], Statuses(e)[next]);
      WalkWithFirst(e, Statuses(e)[i], Route(e, next, j));
    }
  }
}
