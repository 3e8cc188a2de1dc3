/** Grouping a sequence of keys: how often each occurs. */
module Tally {

  /** How often a key occurs. */
  function Occurrences<K(==)>(keys: seq<K>, key: K): nat {
    if keys == [] then 0
    else Occurrences(keys[..|keys| - 1], key) + (if keys[|keys| - 1] == key then 1 else 0)
  }

  /** One more of `key` among the groups. */
  function Bump<K(==)>(groups: seq<(K, nat)>, key: K): seq<(K, nat)> {
    if groups == [] then [(key, 1)]
    else if groups[0].0 == key then [(key, groups[0].1 + 1)] + groups[1..]
    else [groups[0]] + Bump(groups[1..], key)
  }

  /** The groups of a sequence of keys, in the order in which the keys first occur. */
  function Group<K(==)>(keys: seq<K>): seq<(K, nat)> {
    if keys == [] then [] else Bump(Group(keys[..|keys| - 1]), keys[|keys| - 1])
  }

  function Sum<K>(groups: seq<(K, nat)>): nat {
    if groups == [] then 0 else groups[0].1 + Sum(groups[1..])
  }

  /** The count of a key among the groups; none is zero. */
  function CountOf<K(==)>(groups: seq<(K, nat)>, key: K): nat {
    if groups == [] then 0
    else (if groups[0].0 == key then groups[0].1 else 0) + CountOf(groups[1..], key)
  }

  lemma {:induction false} BumpAddsOne<K>(groups: seq<(K, nat)>, key: K, other: K)
    ensures Sum(Bump(groups, key)) == Sum(groups) + 1
    ensures CountOf(Bump(groups, key), other) == CountOf(groups, other) + (if other == key then 1 else 0)
  {
    if groups != [] {
      if groups[0].0 == key {
        assert Bump(groups, key)[1..] == groups[1..];
      } else {
        BumpAddsOne(groups[1..], key, other);
        assert Bump(groups, key)[1..] == Bump(groups[1..], key);
      }
    } else {
      assert Bump(groups, key)[1..] == [];
    }
  }

  /** Grouping loses nothing: the groups' counts add up to the length, and each is its key's. */
  lemma {:induction false} GroupCounts<K>(keys: seq<K>, key: K)
    ensures Sum(Group(keys)) == |keys|
    ensures CountOf(Group(keys), key) == Occurrences(keys, key)
  {
    if keys != [] {
      GroupCounts(keys[..|keys| - 1], key);
      BumpAddsOne(Group(keys[..|keys| - 1]), keys[|keys| - 1], key);
    }
  }

  ghost predicate HasKey<K>(groups: seq<(K, nat)>, key: K) {
    exists i :: 0 <= i < |groups| && groups[i].0 == key
  }

  ghost predicate HasDistinctKeys<K>(groups: seq<(K, nat)>) {
    forall i, j :: 0 <= i < j < |groups| ==> groups[i].0 != groups[j].0
  }

  lemma {:induction false} BumpKeepsDistinct<K>(groups: seq<(K, nat)>, key: K)
    requires HasDistinctKeys(groups)
    ensures HasDistinctKeys(Bump(groups, key))
    ensures forall i :: 0 <= i < |Bump(groups, key)| ==>
              Bump(groups, key)[i].0 == key || HasKey(groups, Bump(groups, key)[i].0)
  {
    if groups != [] && groups[0].0 != key {
      var rest := groups[1..];
      BumpKeepsDistinct(rest, key);
      forall i | 0 <= i < |Bump(rest, key)|
        ensures Bump(rest, key)[i].0 != groups[0].0
        ensures Bump(rest, key)[i].0 == key || HasKey(groups, Bump(rest, key)[i].0)
      {
        if Bump(rest, key)[i].0 != key {
          var j :| 0 <= j < |rest| && rest[j].0 == Bump(rest, key)[i].0;
          assert groups[j + 1] == rest[j];
        }
      }
    }
  }

  lemma {:induction false} SumAppend<K>(groups: seq<(K, nat)>, g: (K, nat))
    ensures Sum(groups + [g]) == Sum(groups) + g.1
  {
    if groups == [] {
      assert groups + [g] == [g];
    } else {
      SumAppend(groups[1..], g);
      assert (groups + [g])[1..] == groups[1..] + [g];
    }
  }

  /** No key has two groups. */
  lemma {:induction false} GroupKeysAreDistinct<K>(keys: seq<K>)
    ensures HasDistinctKeys(Group(keys))
  {
    if keys != [] {
      GroupKeysAreDistinct(keys[..|keys| - 1]);
      BumpKeepsDistinct(Group(keys[..|keys| - 1]), keys[|keys| - 1]);
    }
  }

  /** A longer sequence has no fewer of any key. */
  lemma {:induction false} OccurrencesGrow<K>(keys: seq<K>, more: seq<K>, key: K)
    ensures Occurrences(keys + more, key) >= Occurrences(keys, key)
  {
    if more == [] {
      assert keys + more == keys;
    } else {
      var front := more[..|more| - 1];
      OccurrencesGrow(keys, front, key);
      assert (keys + more)[..|keys + more| - 1] == keys + front;
    }
  }

  // ----- Largest groups first -----

  ghost predicate IsDescending<K>(groups: seq<(K, nat)>) {
    forall i, j :: 0 <= i < j < |groups| ==> groups[i].1 >= groups[j].1
  }

  function Insert<K>(groups: seq<(K, nat)>, g: (K, nat)): seq<(K, nat)> {
    if groups == [] || groups[0].1 < g.1 then [g] + groups else [groups[0]] + Insert(groups[1..], g)
  }

  /** The groups by descending count; of equal ones the earlier comes first. */
  function ByCount<K>(groups: seq<(K, nat)>): seq<(K, nat)> {
    if groups == [] then [] else Insert(ByCount(groups[..|groups| - 1]), groups[|groups| - 1])
  }

  lemma {:induction false} InsertKeeps<K>(groups: seq<(K, nat)>, g: (K, nat))
    ensures multiset(Insert(groups, g)) == multiset(groups) + multiset{g}
    ensures Sum(Insert(groups, g)) == Sum(groups) + g.1
  {
    if groups != [] && groups[0].1 >= g.1 {
      InsertKeeps(groups[1..], g);
      assert groups == [groups[0]] + groups[1..] && Insert(groups, g)[1..] == Insert(groups[1..], g);
    } else {
      assert ([g] + groups)[1..] == groups;
    }
  }

  lemma InsertedOrOld<K>(groups: seq<(K, nat)>, g: (K, nat), i: nat)
    requires i < |Insert(groups, g)|
    ensures Insert(groups, g)[i] == g || Insert(groups, g)[i] in groups
  {
    InsertKeeps(groups, g);
    assert Insert(groups, g)[i] in multiset(Insert(groups, g));
  }

  lemma {:induction false} InsertKeepsOrder<K>(groups: seq<(K, nat)>, g: (K, nat))
    requires IsDescending(groups)
    ensures IsDescending(Insert(groups, g))
  {
    if groups != [] && groups[0].1 >= g.1 {
      var rest := groups[1..];
      InsertKeepsOrder(rest, g);
      forall i | 0 <= i < |Insert(rest, g)| ensures Insert(rest, g)[i].1 <= groups[0].1 {
        InsertedOrOld(rest, g, i);
      }
    }
  }

  lemma {:induction false} InsertCounts<K>(groups: seq<(K, nat)>, g: (K, nat), key: K)
    ensures CountOf(Insert(groups, g), key) == CountOf(groups, key) + (if g.0 == key then g.1 else 0)
  {
    if groups != [] && groups[0].1 >= g.1 {
      InsertCounts(groups[1..], g, key);
      assert Insert(groups, g)[1..] == Insert(groups[1..], g);
    } else {
      assert ([g] + groups)[1..] == groups;
    }
  }

  lemma {:induction false} CountOfAppend<K>(groups: seq<(K, nat)>, g: (K, nat), key: K)
    ensures CountOf(groups + [g], key) == CountOf(groups, key) + (if g.0 == key then g.1 else 0)
  {
    if groups == [] {
      assert groups + [g] == [g];
    } else {
      CountOfAppend(groups[1..], g, key);
      assert (groups + [g])[1..] == groups[1..] + [g];
    }
  }

  /** Ordering moves the groups about and changes nothing else. */
  lemma {:induction false} ByCountKeeps<K>(groups: seq<(K, nat)>, key: K)
    ensures multiset(ByCount(groups)) == multiset(groups) && IsDescending(ByCount(groups))
    ensures Sum(ByCount(groups)) == Sum(groups)
    ensures CountOf(ByCount(groups), key) == CountOf(groups, key)
  {
    if groups != [] {
      var front, g := groups[..|groups| - 1], groups[|groups| - 1];
      assert groups == front + [g];
      ByCountKeeps(front, key);
      InsertKeeps(ByCount(front), g);
      InsertKeepsOrder(ByCount(front), g);
      InsertCounts(ByCount(front), g, key);
      SumAppend(front, g);
      CountOfAppend(front, g, key);
    }
  }

  lemma {:induction false} InsertKeepsDistinct<K>(groups: seq<(K, nat)>, g: (K, nat))
    requires HasDistinctKeys(groups) && !HasKey(groups, g.0)
    ensures HasDistinctKeys(Insert(groups, g))
  {
    if groups != [] && groups[0].1 >= g.1 {
      var rest := groups[1..];
      InsertKeepsDistinct(rest, g);
      forall i | 0 <= i < |Insert(rest, g)| ensures Insert(rest, g)[i].0 != groups[0].0 {
        InsertedOrOld(rest, g, i);
      }
    }
  }

  lemma {:induction false} ByCountKeepsDistinct<K>(groups: seq<(K, nat)>)
    requires HasDistinctKeys(groups)
    ensures HasDistinctKeys(ByCount(groups))
  {
    if groups != [] {
      var front, g := groups[..|groups| - 1], groups[|groups| - 1];
      ByCountKeepsDistinct(front);
      ByCountKeeps(front, g.0);
      forall i | 0 <= i < |ByCount(front)| ensures ByCount(front)[i].0 != g.0 {
        assert ByCount(front)[i] in multiset(ByCount(front));
        assert ByCount(front)[i] in front;
      }
      InsertKeepsDistinct(ByCount(front), g);
    }
  }

  /** Largest first, one group for a key, none of zero. */
  ghost predicate IsTally<K>(groups: seq<(K, nat)>) {
    IsDescending(groups) && HasDistinctKeys(groups) && forall g :: g in groups ==> g.1 > 0
  }

  lemma {:induction false} BumpKeepsPositive<K>(groups: seq<(K, nat)>, key: K)
    requires forall g :: g in groups ==> g.1 > 0
    ensures forall g :: g in Bump(groups, key) ==> g.1 > 0
  {
    if groups != [] && groups[0].0 != key {
      BumpKeepsPositive(groups[1..], key);
    }
  }

  lemma {:induction false} GroupIsPositive<K>(keys: seq<K>)
    ensures forall g :: g in Group(keys) ==> g.1 > 0
  {
    if keys != [] {
      GroupIsPositive(keys[..|keys| - 1]);
      BumpKeepsPositive(Group(keys[..|keys| - 1]), keys[|keys| - 1]);
    }
  }

  lemma GroupIsTally<K>(keys: seq<K>)
    ensures IsTally(ByCount(Group(keys)))
  {
    var groups := Group(keys);
    GroupIsPositive(keys);
    GroupKeysAreDistinct(keys);
    ByCountKeepsDistinct(groups);
    if groups != [] {
      ByCountKeeps(groups, groups[0].0);
    }
    forall g | g in ByCount(groups) ensures g.1 > 0 {
      assert g in multiset(ByCount(groups));
    }
  }

  lemma OccurrencesAppend<K>(keys: seq<K>, k: K, key: K)
    ensures Occurrences(keys + [k], key) == Occurrences(keys, key) + (if k == key then 1 else 0)
  {
    assert (keys + [k])[..|keys|] == keys;
  }
}
