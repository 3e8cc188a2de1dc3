/**
 The append-only audit log and its summary. The summary is five separate
 queries with no transaction around them, so other requests may append between
 any two; what can then still be relied on follows from the log only growing.
 */
module AuditLog {
  import opened AuditEntries
  import opened Tally

  datatype Timed = Timed(entry: AuditEntry, createdAt: int)

  /** The groups are listed by descending count. */
  datatype AuditSummary = AuditSummary(
    since: int, total: nat, transitions: nat, uniqueActors: nat,
    actions: seq<(string, nat)>, entityTypes: seq<(string, nat)>)

  /** The entries created at or after a time. */
  function Since(log: seq<Timed>, since: int): seq<AuditEntry> {
    if log == [] then []
    else
      var last := log[|log| - 1];
      Since(log[..|log| - 1], since) + (if last.createdAt >= since then [last.entry] else [])
  }

  function Actions(entries: seq<AuditEntry>): seq<string> {
    seq(|entries|, i requires 0 <= i < |entries| => entries[i].action)
  }

  function EntityTypes(entries: seq<AuditEntry>): seq<string> {
    seq(|entries|, i requires 0 <= i < |entries| => entries[i].entityType)
  }

  function Actors(entries: seq<AuditEntry>): set<string> {
    set a | a in entries :: a.actor
  }

  /** The summary made of five queries, each on the log as it then was. */
  function Summarize(q1: seq<Timed>, q2: seq<Timed>, q3: seq<Timed>, q4: seq<Timed>, q5: seq<Timed>, since: int)
    : AuditSummary
  {
    AuditSummary(
      since,
      |Since(q1, since)|,
      Occurrences(Actions(Since(q2, since)), "transition"),
      |Actors(Since(q3, since))|,
      ByCount(Group(Actions(Since(q4, since)))),
      ByCount(Group(EntityTypes(Since(q5, since)))))
  }

  lemma {:induction false} SinceGrows(log: seq<Timed>, more: seq<Timed>, since: int)
    ensures Since(log + more, since) == Since(log, since) + Since(more, since)
  {
    if more == [] {
      assert log + more == log;
      assert Since(log, since) + [] == Since(log, since);
    } else {
      var front, last := more[..|more| - 1], more[|more| - 1];
      SinceGrows(log, front, since);
      assert (log + more)[..|log + more| - 1] == log + front;
    }
  }

  lemma {:induction false} FewerActorsThanEntries(entries: seq<AuditEntry>)
    ensures |Actors(entries)| <= |entries|
  {
    if entries != [] {
      var front, last := entries[..|entries| - 1], entries[|entries| - 1];
      FewerActorsThanEntries(front);
      assert entries == front + [last];
      assert Actors(entries) == Actors(front) + {last.actor};
    }
  }

  lemma LaterSeesMore(log: seq<Timed>, more: seq<Timed>, since: int)
    ensures |Since(log, since)| <= |Since(log + more, since)|
    ensures forall a: string ::
              Occurrences(Actions(Since(log, since)), a) <= Occurrences(Actions(Since(log + more, since)), a)
  {
    SinceGrows(log, more, since);
    var x, y := Since(log, since), Since(more, since);
    assert Actions(x + y) == Actions(x) + Actions(y);
    forall a: string ensures Occurrences(Actions(x), a) <= Occurrences(Actions(x + y), a) {
      OccurrencesGrow(Actions(x), Actions(y), a);
    }
  }

  /** The ordered groups of some keys: distinct, each with its count, and adding up to all. */
  lemma CountsByCount(keys: seq<string>, key: string)
    ensures var groups := ByCount(Group(keys));
            && Sum(groups) == |keys| && CountOf(groups, key) == Occurrences(keys, key)
            && HasDistinctKeys(groups) && IsDescending(groups)
  {
    GroupCounts(keys, key);
    GroupKeysAreDistinct(keys);
    ByCountKeeps(Group(keys), key);
    ByCountKeepsDistinct(Group(keys));
  }

  /**
   Whatever is appended between the five queries, the later ones see no less:
   the total is at most the actions' sum, that at most the types' sum; the
   transition count at most the transition group; the actors at most the
   actions' sum.
   */
  lemma SummaryIsMonotone(log: seq<Timed>, m1: seq<Timed>, m2: seq<Timed>, m3: seq<Timed>, m4: seq<Timed>, since: int)
    ensures var r := Summarize(log, log + m1, log + m1 + m2, log + m1 + m2 + m3, log + m1 + m2 + m3 + m4, since);
            && r.total <= Sum(r.actions) <= Sum(r.entityTypes)
            && r.transitions <= CountOf(r.actions, "transition")
            && r.uniqueActors <= Sum(r.actions)
            && IsDescending(r.actions) && IsDescending(r.entityTypes)
  {
    var q2, q3 := log + m1, log + m1 + m2;
    var q4 := q3 + m3;
    LaterSeesMore(log, m1, since);
    LaterSeesMore(q2, m2, since);
    LaterSeesMore(q3, m3, since);
    LaterSeesMore(q4, m4, since);
    FewerActorsThanEntries(Since(q3, since));
    CountsByCount(Actions(Since(q4, since)), "transition");
    CountsByCount(EntityTypes(Since(q4 + m4, since)), "transition");
  }

  /** When nothing is appended in between, the figures agree. */
  lemma QuietSummaryIsExact(log: seq<Timed>, since: int)
    ensures var r := Summarize(log, log, log, log, log, since);
            && r.total == Sum(r.actions) == Sum(r.entityTypes)
            && r.transitions == CountOf(r.actions, "transition")
            && r.uniqueActors <= r.total
            && HasDistinctKeys(r.actions) && HasDistinctKeys(r.entityTypes)
            && forall a: string :: CountOf(r.actions, a) == Occurrences(Actions(Since(log, since)), a)
  {
    var entries := Since(log, since);
    FewerActorsThanEntries(entries);
    CountsByCount(EntityTypes(entries), "");
    CountsByCount(Actions(entries), "transition");
    forall a: string ensures CountOf(ByCount(Group(Actions(entries))), a) == Occurrences(Actions(entries), a) {
      CountsByCount(Actions(entries), a);
    }
  }

  // ----- What the figures count -----

  lemma {:induction false} TotalByIndex(log: seq<Timed>, since: int)
    ensures |Since(log, since)| == |set i | 0 <= i < |log| && log[i].createdAt >= since|
  {
    if log != [] {
      var n := |log| - 1;
      var front := log[..n];
      TotalByIndex(front, since);
      var before := set i | 0 <= i < |front| && front[i].createdAt >= since;
      assert (set i | 0 <= i < |log| && log[i].createdAt >= since)
          == before + (if log[n].createdAt >= since then {n} else {});
    }
  }

  /** The entries of the log made at or after a time and of a kind, by index. */
  ghost function Made(log: seq<Timed>, since: int, kind: AuditEntry -> bool): set<nat> {
    set i | 0 <= i < |log| && log[i].createdAt >= since && kind(log[i].entry)
  }

  lemma MadeGrows(log: seq<Timed>, since: int, kind: AuditEntry -> bool)
    requires log != []
    ensures var n := |log| - 1;
            |Made(log, since, kind)|
            == |Made(log[..n], since, kind)| + (if log[n].createdAt >= since && kind(log[n].entry) then 1 else 0)
  {
    var n := |log| - 1;
    var before := Made(log[..n], since, kind);
    assert Made(log, since, kind) == before + (if log[n].createdAt >= since && kind(log[n].entry) then {n} else {});
  }

  ghost function HasAction(a: string): AuditEntry -> bool {
    (entry: AuditEntry) => entry.action == a
  }

  ghost function HasType(y: string): AuditEntry -> bool {
    (entry: AuditEntry) => entry.entityType == y
  }

  lemma {:induction false} ActionByMade(log: seq<Timed>, since: int, a: string)
    ensures Occurrences(Actions(Since(log, since)), a) == |Made(log, since, HasAction(a))|
  {
    if log != [] {
      var front, last := log[..|log| - 1], log[|log| - 1];
      ActionByMade(front, since, a);
      MadeGrows(log, since, HasAction(a));
      if last.createdAt >= since {
        assert Actions(Since(log, since)) == Actions(Since(front, since)) + [last.entry.action];
        OccurrencesAppend(Actions(Since(front, since)), last.entry.action, a);
      } else {
        assert Since(log, since) == Since(front, since);
      }
    }
  }

  lemma {:induction false} TypeByMade(log: seq<Timed>, since: int, y: string)
    ensures Occurrences(EntityTypes(Since(log, since)), y) == |Made(log, since, HasType(y))|
  {
    if log != [] {
      var front, last := log[..|log| - 1], log[|log| - 1];
      TypeByMade(front, since, y);
      MadeGrows(log, since, HasType(y));
      if last.createdAt >= since {
        assert EntityTypes(Since(log, since)) == EntityTypes(Since(front, since)) + [last.entry.entityType];
        OccurrencesAppend(EntityTypes(Since(front, since)), last.entry.entityType, y);
      } else {
        assert Since(log, since) == Since(front, since);
      }
    }
  }

  lemma ActionByIndex(log: seq<Timed>, since: int, a: string)
    ensures Occurrences(Actions(Since(log, since)), a)
         == |set i | 0 <= i < |log| && log[i].createdAt >= since && log[i].entry.action == a|
  {
    ActionByMade(log, since, a);
    assert Made(log, since, HasAction(a))
        == set i | 0 <= i < |log| && log[i].createdAt >= since && log[i].entry.action == a;
  }

  lemma TypeByIndex(log: seq<Timed>, since: int, y: string)
    ensures Occurrences(EntityTypes(Since(log, since)), y)
         == |set i | 0 <= i < |log| && log[i].createdAt >= since && log[i].entry.entityType == y|
  {
    TypeByMade(log, since, y);
    assert Made(log, since, HasType(y))
        == set i | 0 <= i < |log| && log[i].createdAt >= since && log[i].entry.entityType == y;
  }

  /** Who made entries at or after a time. */
  ghost function Makers(log: seq<Timed>, since: int): set<string> {
    set i | 0 <= i < |log| && log[i].createdAt >= since :: log[i].entry.actor
  }

  lemma MakersGrow(log: seq<Timed>, since: int)
    requires log != []
    ensures var n := |log| - 1;
            Makers(log, since)
            == Makers(log[..n], since) + (if log[n].createdAt >= since then {log[n].entry.actor} else {})
  {
    var n := |log| - 1;
    var front := log[..n];
    forall a | a in Makers(front, since) ensures a in Makers(log, since) {
      var i :| 0 <= i < n && front[i].createdAt >= since && front[i].entry.actor == a;
      assert log[i] == front[i];
    }
    forall a | a in Makers(log, since)
      ensures a in Makers(front, since) || (log[n].createdAt >= since && a == log[n].entry.actor)
    {
      var i :| 0 <= i < |log| && log[i].createdAt >= since && log[i].entry.actor == a;
      assert i == n || front[i] == log[i];
    }
  }

  lemma ActorsAppend(entries: seq<AuditEntry>, last: AuditEntry)
    ensures Actors(entries + [last]) == Actors(entries) + {last.actor}
  {
  }

  lemma {:induction false} ActorsByIndex(log: seq<Timed>, since: int)
    ensures Actors(Since(log, since)) == Makers(log, since)
  {
    if log != [] {
      var front, last := log[..|log| - 1], log[|log| - 1];
      ActorsByIndex(front, since);
      MakersGrow(log, since);
      if last.createdAt >= since {
        ActorsAppend(Since(front, since), last.entry);
      } else {
        assert Since(log, since) == Since(front, since);
      }
    }
  }

  /**
   Each figure counts the entries of the log, as its own query found it, that
   were made at or after `since`: all of them, the transitions, the actors, and
   those of each action and each entity type that occurs.
   */
  lemma SummaryCountsEntries(q1: seq<Timed>, q2: seq<Timed>, q3: seq<Timed>, q4: seq<Timed>, q5: seq<Timed>, since: int)
    ensures var r := Summarize(q1, q2, q3, q4, q5, since);
            && r.total == |set i | 0 <= i < |q1| && q1[i].createdAt >= since|
            && r.transitions
               == |set i | 0 <= i < |q2| && q2[i].createdAt >= since && q2[i].entry.action == "transition"|
            && r.uniqueActors == |set i | 0 <= i < |q3| && q3[i].createdAt >= since :: q3[i].entry.actor|
            && (forall a :: CountOf(r.actions, a)
                         == |set i | 0 <= i < |q4| && q4[i].createdAt >= since && q4[i].entry.action == a|)
            && (forall y :: CountOf(r.entityTypes, y)
                         == |set i | 0 <= i < |q5| && q5[i].createdAt >= since && q5[i].entry.entityType == y|)
            && IsTally(r.actions) && IsTally(r.entityTypes)
  {
    TotalByIndex(q1, since);
    ActionByIndex(q2, since, "transition");
    ActorsByIndex(q3, since);
    var actions, types := Actions(Since(q4, since)), EntityTypes(Since(q5, since));
    forall a ensures CountOf(ByCount(Group(actions)), a)
                  == |set i | 0 <= i < |q4| && q4[i].createdAt >= since && q4[i].entry.action == a|
    {
      CountsByCount(actions, a);
      ActionByIndex(q4, since, a);
    }
    forall y ensures CountOf(ByCount(Group(types)), y)
                  == |set i | 0 <= i < |q5| && q5[i].createdAt >= since && q5[i].entry.entityType == y|
    {
      CountsByCount(types, y);
      TypeByIndex(q5, since, y);
    }
    GroupIsTally(actions);
    GroupIsTally(types);
  }

  class AuditStore {
    var entries: seq<Timed>

    constructor ()
      ensures entries == []
    {
      entries := [];
    }

    /** Stores one entry; `stored` is whether the database takes it. */
    method AppendAudit(entry: AuditEntry, now: int, stored: bool) returns (ok: bool)
      modifies this
      ensures ok == stored
      ensures entries == if stored then old(entries) + [Timed(entry, now)] else old(entries)
    {
      if stored {
        entries := entries + [Timed(entry, now)];
      }
      return stored;
    }

    /** The entry every service writes; one without action or entity type is refused. */
    method Audit(actor: string, requestId: string, action: string, entityType: string, entityId: nat,
                 before: string, after: string, detail: string, now: int, stored: bool) returns (ok: bool)
      modifies this
      ensures ok <==> action != "" && entityType != "" && stored
      ensures !ok ==> entries == old(entries)
      ensures ok ==>
                var who := if actor == "" then "system" else actor;
                var request := if requestId == "" then "untracked" else requestId;
                var entry := AuditEntry(who, request, action, entityType, entityId, before, after, detail);
                entries == old(entries) + [Timed(entry, now)]
    {
      var who, request := actor, requestId;
      if who == "" {
        who := "system";
      }
      if request == "" {
        request := "untracked";
      }
      if action == "" || entityType == "" {
        return false;
      }
      ok := AppendAudit(AuditEntry(who, request, action, entityType, entityId, before, after, detail), now, stored);
    }

    /** The five queries, with the entries other requests append after each of the first four. */
    method SummarizeAudits(since: int, m1: seq<Timed>, m2: seq<Timed>, m3: seq<Timed>, m4: seq<Timed>)
      returns (summary: AuditSummary)
      modifies this
      ensures entries == old(entries) + m1 + m2 + m3 + m4
      ensures summary.since == since
      ensures var log := old(entries); summary.total == |set i | 0 <= i < |log| && log[i].createdAt >= since|
      ensures summary.total <= Sum(summary.actions) <= Sum(summary.entityTypes)
      ensures summary.transitions <= CountOf(summary.actions, "transition")
      ensures summary.uniqueActors <= Sum(summary.actions)
      ensures IsDescending(summary.actions) && IsDescending(summary.entityTypes)
      ensures summary == Summarize(old(entries), old(entries) + m1, old(entries) + m1 + m2,
                                   old(entries) + m1 + m2 + m3, old(entries) + m1 + m2 + m3 + m4, since)
    {
      SummaryIsMonotone(entries, m1, m2, m3, m4, since);
      TotalByIndex(entries, since);
      summary := AuditSummary(since, 0, 0, 0, [], []);
      summary := summary.(total := |Since(entries, since)|);
      entries := entries + m1;
      summary := summary.(transitions := Occurrences(Actions(Since(entries, since)), "transition"));
      entries := entries + m2;
      summary := summary.(uniqueActors := |Actors(Since(entries, since))|);
      entries := entries + m3;
      summary := summary.(actions := ByCount(Group(Actions(Since(entries, since)))));
      entries := entries + m4;
      summary := summary.(entityTypes := ByCount(Group(EntityTypes(Since(entries, since)))));
    }
  }
}
