/** sortItems: the ranked order of the word list. Higher levels come
    first; among equal levels the newer item (larger createdAt) comes first. */
module Ranking {
  import opened Words

  /** The comparator sortItems hands to `Array.prototype.sort`: a result
      that is negative or zero lets `a` stay ahead of `b`. */
  function Compare(a: Item, b: Item): int {
    if b.level != a.level then b.level - a.level else b.createdAt - a.createdAt
  }

  /** `a` may be listed ahead of `b` in the ranked order. */
  predicate RanksAbove(a: Item, b: Item) {
    a.level > b.level || (a.level == b.level && a.createdAt >= b.createdAt)
  }

  /** Level never increases along `s`, and createdAt never increases along a
      run of equal levels. */
  predicate Sorted(s: seq<Item>) {
    forall i, j :: 0 <= i < j < |s| ==> RanksAbove(s[i], s[j])
  }

  /** The comparator lets `a` stay ahead of `b` exactly when `a` ranks at or
      above `b`. */
  lemma CompareMeansRank(a: Item, b: Item)
    ensures Compare(a, b) <= 0 <==> RanksAbove(a, b)
    ensures Compare(a, b) > 0 ==> RanksAbove(b, a)
  {
  }

  /** Places `x` into the ranked sequence `t` ahead of the first item it
      ranks at or above, so equal-ranked items keep their order. */
  function Insert(x: Item, t: seq<Item>): (r: seq<Item>)
    ensures |r| == |t| + 1
    ensures multiset(r) == multiset(t) + multiset{x}
  {
    if t == [] then [x]
    else if Compare(x, t[0]) <= 0 then [x] + t
    else
      assert t == [t[0]] + t[1..];
      [t[0]] + Insert(x, t[1..])
  }

  lemma {:induction false} InsertSorted(x: Item, t: seq<Item>)
    requires Sorted(t)
    ensures Sorted(Insert(x, t))
  {
    if t != [] && Compare(x, t[0]) > 0 {
      var rest := Insert(x, t[1..]);
      InsertSorted(x, t[1..]);
      var r := [t[0]] + rest;
      assert Insert(x, t) == r;
      forall j | 0 <= j < |rest| ensures RanksAbove(t[0], rest[j]) {
        assert rest[j] in multiset(rest);
        if rest[j] != x {
          assert rest[j] in multiset(t[1..]);
          var k :| 0 <= k < |t[1..]| && t[1..][k] == rest[j];
          assert t[k + 1] == rest[j];
        } else {
          CompareMeansRank(x, t[0]);
        }
      }
      forall i, j | 0 <= i < j < |r| ensures RanksAbove(r[i], r[j]) {
        if i == 0 {
          assert r[j] == rest[j - 1];
        } else {
          assert r[i] == rest[i - 1] && r[j] == rest[j - 1];
        }
      }
    } else if t != [] {
      CompareMeansRank(x, t[0]);
      var r := [x] + t;
      forall i, j | 0 <= i < j < |r| ensures RanksAbove(r[i], r[j]) {
        if i == 0 {
          assert r[j] == t[j - 1];
          assert RanksAbove(t[0], t[j - 1]) || j == 1;
        } else {
          assert r[i] == t[i - 1] && r[j] == t[j - 1];
        }
      }
    }
  }

  /** sortItems: a ranked rearrangement of exactly the given items. */
  function Sort(s: seq<Item>): (r: seq<Item>)
    ensures |r| == |s|
    ensures multiset(r) == multiset(s)
    ensures Sorted(r)
  {
    if s == [] then []
    else
      var t := Sort(s[1..]);
      InsertSorted(s[0], t);
      assert s == [s[0]] + s[1..];
      Insert(s[0], t)
  }

  /** `a` and `b` rank equal: the comparator returns 0 for them. */
  predicate Tied(a: Item, b: Item) {
    a.level == b.level && a.createdAt == b.createdAt
  }

  /** The items of `s` that rank equal to `k`, in their order in `s`. */
  function TiedWith(s: seq<Item>, k: Item): (r: seq<Item>)
    ensures |r| <= |s|
    ensures forall j :: 0 <= j < |r| ==> Tied(r[j], k)
  {
    if s == [] then [] else (if Tied(s[0], k) then [s[0]] else []) + TiedWith(s[1..], k)
  }

  /** TiedWith on a list with a given first item. */
  lemma TiedWithCons(a: Item, t: seq<Item>, k: Item)
    ensures TiedWith([a] + t, k) == (if Tied(a, k) then [a] else []) + TiedWith(t, k)
  {
    assert ([a] + t)[1..] == t;
  }

  /** Insert puts `x` ahead of every item that ranks equal to it and after
      none of them. */
  lemma {:induction false} InsertTied(x: Item, t: seq<Item>, k: Item)
    ensures TiedWith(Insert(x, t), k) == (if Tied(x, k) then [x] else []) + TiedWith(t, k)
  {
    if t == [] {
      TiedWithCons(x, [], k);
    } else if Compare(x, t[0]) <= 0 {
      TiedWithCons(x, t, k);
    } else {
      InsertTied(x, t[1..], k);
      InsertPastTied(x, t, k);
    }
  }

  /** The step of InsertTied where `x` goes past the first item of `t`: that
      item outranks `x`, so at most one of the two ties with `k`. */
  lemma InsertPastTied(x: Item, t: seq<Item>, k: Item)
    requires t != [] && Compare(x, t[0]) > 0
    requires TiedWith(Insert(x, t[1..]), k) == (if Tied(x, k) then [x] else []) + TiedWith(t[1..], k)
    ensures TiedWith(Insert(x, t), k) == (if Tied(x, k) then [x] else []) + TiedWith(t, k)
  {
    var own := if Tied(x, k) then [x] else [];
    var head := if Tied(t[0], k) then [t[0]] else [];
    var rest := Insert(x, t[1..]);
    var tail := TiedWith(t[1..], k);
    assert Insert(x, t) == [t[0]] + rest;
    TiedWithCons(t[0], rest, k);
    assert TiedWith(Insert(x, t), k) == head + (own + tail);
    assert t == [t[0]] + t[1..];
    TiedWithCons(t[0], t[1..], k);
    assert TiedWith(t, k) == head + tail;
    assert head == [] || own == [];
    SwapEmpty(head, own, tail);
  }

  /** One of two lists is empty, so they may change places in front of a third. */
  lemma SwapEmpty<T>(a: seq<T>, b: seq<T>, c: seq<T>)
    requires a == [] || b == []
    ensures a + (b + c) == b + (a + c)
  {
  }

  /** sortItems is stable: the items that rank equal to any `k` keep the
      order they had before the sort. */
  lemma {:induction false} SortStable(s: seq<Item>, k: Item)
    ensures TiedWith(Sort(s), k) == TiedWith(s, k)
  {
    if s != [] {
      SortStable(s[1..], k);
      InsertTied(s[0], Sort(s[1..]), k);
    }
  }

  /** Sorting a list that is already ranked leaves it exactly as it is. */
  lemma {:induction false} SortOfSorted(s: seq<Item>)
    requires Sorted(s)
    ensures Sort(s) == s
  {
    if s != [] {
      var tail := s[1..];
      assert Sorted(tail) by {
        forall i, j | 0 <= i < j < |tail| ensures RanksAbove(tail[i], tail[j]) {
          assert tail[i] == s[i + 1] && tail[j] == s[j + 1];
        }
      }
      SortOfSorted(tail);
      assert Sort(s) == Insert(s[0], tail);
      if tail != [] {
        assert tail[0] == s[1];
        CompareMeansRank(s[0], tail[0]);
        assert Insert(s[0], tail) == [s[0]] + tail;
      }
      assert s == [s[0]] + tail;
    }
  }

  /** Re-sorting before every read is harmless: sorting is idempotent. */
  lemma SortIdempotent(s: seq<Item>)
    ensures Sort(Sort(s)) == Sort(s)
  {
    SortOfSorted(Sort(s));
  }

  lemma {:induction false} InsertKeepsDistinctIds(x: Item, t: seq<Item>)
    requires DistinctIds(t)
    requires x.id !in Ids(t)
    ensures DistinctIds(Insert(x, t))
  {
    if t == [] {
    } else if Compare(x, t[0]) <= 0 {
      var r := [x] + t;
      forall i, j | 0 <= i < j < |r| ensures r[i].id != r[j].id {
        if i == 0 {
          assert r[j] == t[j - 1];
          MemberId(t[j - 1], t);
        } else {
          assert r[i] == t[i - 1] && r[j] == t[j - 1];
        }
      }
    } else {
      IdsCons(t);
      var rest := Insert(x, t[1..]);
      InsertKeepsDistinctIds(x, t[1..]);
      var r := [t[0]] + rest;
      assert Insert(x, t) == r;
      forall j | 0 <= j < |rest| ensures rest[j].id != t[0].id {
        assert rest[j] in multiset(rest);
        if rest[j] != x {
          assert rest[j] in multiset(t[1..]);
          var k :| 0 <= k < |t[1..]| && t[1..][k] == rest[j];
          assert t[k + 1] == rest[j];
        } else {
          MemberId(t[0], t);
        }
      }
      forall i, j | 0 <= i < j < |r| ensures r[i].id != r[j].id {
        if i == 0 {
          assert r[j] == rest[j - 1];
        } else {
          assert r[i] == rest[i - 1] && r[j] == rest[j - 1];
        }
      }
    }
  }

  /** Sorting never makes two items share an id. */
  lemma {:induction false} SortKeepsDistinctIds(s: seq<Item>)
    requires DistinctIds(s)
    ensures DistinctIds(Sort(s))
  {
    if s != [] {
      assert DistinctIds(s[1..]) by {
        forall i, j | 0 <= i < j < |s[1..]| ensures s[1..][i].id != s[1..][j].id {
          assert s[1..][i] == s[i + 1] && s[1..][j] == s[j + 1];
        }
      }
      SortKeepsDistinctIds(s[1..]);
      var t := Sort(s[1..]);
      SameItemsSameIds(t, s[1..]);
      InsertKeepsDistinctIds(s[0], t);
    }
  }
}
