/**
 Listing a table page by page: newest first, ties broken by the larger id. For a
 fixed table and filter the pages are a partition of the filtered rows in order.
 */
module Paging {
  import opened Records

  /** The live rows a filter keeps. */
  function Selected(t: Table, keep: Record -> bool): set<nat> {
    set id | id in t.rows && !t.rows[id].deleted && keep(t.rows[id].rec)
  }

  /** `a` is listed before `b`. */
  predicate Before(t: Table, a: nat, b: nat)
    requires a in t.rows && b in t.rows
  {
    t.rows[a].updatedAt > t.rows[b].updatedAt || (t.rows[a].updatedAt == t.rows[b].updatedAt && a > b)
  }

  predicate IsFirst(t: Table, ids: set<nat>, a: nat)
    requires ids <= t.rows.Keys
  {
    a in ids && forall b :: b in ids && b != a ==> Before(t, a, b)
  }

  lemma {:induction false} SomeoneIsFirst(t: Table, ids: set<nat>)
    requires ids <= t.rows.Keys && ids != {}
    ensures exists a :: IsFirst(t, ids, a)
    decreases |ids|
  {
    var x :| x in ids;
    if ids == {x} {
      assert IsFirst(t, ids, x);
    } else {
      SomeoneIsFirst(t, ids - {x});
      var a :| IsFirst(t, ids - {x}, a);
      var first := if Before(t, x, a) then x else a;
      forall b | b in ids && b != first ensures Before(t, first, b) {
        assert b == x || b in ids - {x};
      }
      assert IsFirst(t, ids, first);
    }
  }

  function First(t: Table, ids: set<nat>): (a: nat)
    requires ids <= t.rows.Keys && ids != {}
    ensures IsFirst(t, ids, a)
  {
    SomeoneIsFirst(t, ids);
    var a: nat :| IsFirst(t, ids, a);
    a
  }

  /** The ids in listing order. */
  function Ranked(t: Table, ids: set<nat>): seq<nat>
    requires ids <= t.rows.Keys
    decreases |ids|
  {
    if ids == {} then [] else
      var a := First(t, ids);
      [a] + Ranked(t, ids - {a})
  }

  /** `s` lists exactly `ids`, each once, in order. */
  ghost predicate IsRanking(t: Table, ids: set<nat>, s: seq<nat>)
    requires ids <= t.rows.Keys
  {
    && (forall id :: id in s <==> id in ids)
    && (forall i, j :: 0 <= i < j < |s| ==> s[i] in t.rows && s[j] in t.rows && s[i] != s[j] && Before(t, s[i], s[j]))
    && |s| == |ids|
  }

  lemma {:induction false} RankedIsRanking(t: Table, ids: set<nat>)
    requires ids <= t.rows.Keys
    ensures IsRanking(t, ids, Ranked(t, ids))
    decreases |ids|
  {
    if ids != {} {
      var a := First(t, ids);
      RankedIsRanking(t, ids - {a});
      assert ids == (ids - {a}) + {a};
    }
  }

  /** The order leaves no choice: there is one ranking. */
  lemma {:induction false} RankingIsUnique(t: Table, ids: set<nat>, s: seq<nat>)
    requires ids <= t.rows.Keys && IsRanking(t, ids, s)
    ensures s == Ranked(t, ids)
    decreases |ids|
  {
    if ids != {} {
      var a := First(t, ids);
      assert a in s;
      var k :| 0 <= k < |s| && s[k] == a;
      assert s[0] in s;
      if k > 0 {
        assert false;
      }
      var rest := s[1..];
      assert s == [a] + rest;
      forall id ensures id in rest <==> id in ids - {a} {
        if id in rest {
          var j :| 0 <= j < |rest| && rest[j] == id;
          assert s[j + 1] == id;
        }
        if id in ids - {a} {
          assert id in s;
        }
      }
      RankingIsUnique(t, ids - {a}, rest);
    }
  }

  /** The bounds the repository forces on a page number and size. */
  function NormalPage(page: int, pageSize: int): (int, int) {
    (if page < 1 then 1 else page, if pageSize < 1 then 20 else if pageSize > 100 then 100 else pageSize)
  }

  /** The bounds the handler forces on them first; an oversized page falls back to 20. */
  function BoundPage(page: int, pageSize: int): (int, int) {
    (if page < 1 then 1 else page, if pageSize < 1 || pageSize > 100 then 20 else pageSize)
  }

  /** After the handler's bounds the repository's change nothing, and either way the page is usable. */
  lemma BoundsCompose(page: int, pageSize: int)
    ensures var (p, n) := BoundPage(page, pageSize); NormalPage(p, n) == (p, n)
    ensures var (p, n) := NormalPage(page, pageSize); p >= 1 && 1 <= n <= 100 && NormalPage(p, n) == (p, n)
    ensures page >= 1 && 1 <= pageSize <= 100 ==>
              BoundPage(page, pageSize) == (page, pageSize) && NormalPage(page, pageSize) == (page, pageSize)
    ensures BoundPage(page, pageSize).0 == (if page >= 1 then page else 1)
    ensures !(1 <= pageSize <= 100) ==> BoundPage(page, pageSize).1 == 20
  {
  }

  function Min(a: int, b: int): int {
    if a <= b then a else b
  }

  /** What skipping (page - 1) * pageSize rows and taking pageSize leaves. */
  function Slice<T>(s: seq<T>, page: int, pageSize: int): seq<T>
    requires page >= 1 && pageSize >= 1
  {
    var start := Min(|s|, (page - 1) * pageSize);
    assert (page - 1) * pageSize >= 0;
    s[start..Min(|s|, start + pageSize)]
  }

  /** The first n pages one after the other. */
  ghost function Pages<T>(s: seq<T>, n: nat, pageSize: int): seq<T>
    requires pageSize >= 1
  {
    if n == 0 then [] else Pages(s, n - 1, pageSize) + Slice(s, n, pageSize)
  }

  /** `all` lists the live rows a filter keeps, each once, newest first, of equally new ones the larger id first. */
  ghost predicate IsListing(t: Table, keep: Record -> bool, all: seq<nat>) {
    && (forall id :: id in all <==> id in t.rows && !t.rows[id].deleted && keep(t.rows[id].rec))
    && (forall i, j :: 0 <= i < j < |all| ==> all[i] != all[j] && IsNewer(t, all[i], all[j]))
  }

  ghost predicate IsNewer(t: Table, a: nat, b: nat) {
    && a in t.rows && b in t.rows
    && (t.rows[a].updatedAt > t.rows[b].updatedAt || (t.rows[a].updatedAt == t.rows[b].updatedAt && a > b))
  }

  lemma RankedIsListing(t: Table, keep: Record -> bool)
    ensures IsListing(t, keep, Ranked(t, Selected(t, keep)))
    ensures |Ranked(t, Selected(t, keep))| == |set id | id in t.rows && !t.rows[id].deleted && keep(t.rows[id].rec)|
  {
    RankedIsRanking(t, Selected(t, keep));
    assert Selected(t, keep) == set id | id in t.rows && !t.rows[id].deleted && keep(t.rows[id].rec);
  }

  /** Where the entries of a page stand in the whole list. */
  lemma SliceIsWindow<T>(s: seq<T>, page: int, pageSize: int)
    requires page >= 1 && pageSize >= 1
    ensures var skipped, shown := (page - 1) * pageSize, Slice(s, page, pageSize);
            && |shown| == (if skipped >= |s| then 0 else Min(pageSize, |s| - skipped))
            && (forall i :: 0 <= i < |shown| ==> 0 <= skipped + i < |s| && shown[i] == s[skipped + i])
  {
    assert (page - 1) * pageSize >= 0;
  }

  /** How many pages hold `total` rows. */
  function PageCount(total: nat, pageSize: int): nat
    requires pageSize >= 1
  {
    (total + pageSize - 1) / pageSize
  }

  lemma {:induction false} PagesArePrefix<T>(s: seq<T>, n: nat, pageSize: int)
    requires pageSize >= 1
    ensures Pages(s, n, pageSize) == s[..Min(|s|, n * pageSize)]
  {
    if n > 0 {
      PagesArePrefix(s, n - 1, pageSize);
      assert n * pageSize == (n - 1) * pageSize + pageSize;
      var a, b := Min(|s|, (n - 1) * pageSize), Min(|s|, n * pageSize);
      assert s[..b] == s[..a] + s[a..b];
    }
  }

  lemma PageCountCovers(total: nat, pageSize: int)
    requires pageSize >= 1
    ensures PageCount(total, pageSize) * pageSize >= total
  {
    var n := total + pageSize - 1;
    assert n == (n / pageSize) * pageSize + n % pageSize;
  }

  /**
   Paging is a partition. For any table, filter and page size the pages up to
   the last, put together, are exactly the filtered rows in listing order, each
   once; their number is the total; and every later page is empty.
   */
  lemma PagesPartition(t: Table, keep: Record -> bool, pageSize: int, later: int)
    requires pageSize >= 1
    ensures var ids := Selected(t, keep);
            var all := Ranked(t, ids);
            var last := PageCount(|all|, pageSize);
            && IsRanking(t, ids, all)
            && Pages(all, last, pageSize) == all
            && (later > last ==> Slice(all, later, pageSize) == [])
  {
    var ids := Selected(t, keep);
    var all := Ranked(t, ids);
    var last := PageCount(|all|, pageSize);
    RankedIsRanking(t, ids);
    PagesArePrefix(all, last, pageSize);
    PageCountCovers(|all|, pageSize);
    if later > last {
      PagesBeyond(|all|, last, later, pageSize);
    }
  }

  lemma PagesBeyond(total: nat, last: nat, later: int, pageSize: int)
    requires pageSize >= 1 && last * pageSize >= total && later > last
    ensures (later - 1) * pageSize >= total
  {
    var k := later - 1 - last;
    assert (later - 1) * pageSize == last * pageSize + k * pageSize;
    assert k * pageSize >= 0;
  }
}
