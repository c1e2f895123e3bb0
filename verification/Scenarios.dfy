/** The behaviours the word list is expected to show, each stated for every
    state it applies to. */
module Scenarios {
  import opened Words
  import opened Text
  import opened Ranking
  import opened Paging
  import opened Store
  import opened Session

  /** Every action of `ops` adds a non-blank word. */
  predicate OnlyAdds(ops: seq<Op>) {
    forall i :: 0 <= i < |ops| ==> ops[i].Add? && !AllWhitespace(ops[i].input)
  }

  /** Each non-blank add grows the list by exactly one. */
  lemma {:induction false} AddsGrowList(s: State, ops: seq<Op>)
    requires OnlyAdds(ops)
    ensures |Run(s, ops).items| == |s.items| + |ops|
    decreases |ops|
  {
    if ops != [] {
      var next := Apply(s, ops[0]);
      assert |multiset(next.items)| == |multiset(s.items)| + 1;
      assert OnlyAdds(ops[1..]) by {
        forall i | 0 <= i < |ops[1..]| ensures ops[1..][i].Add? && !AllWhitespace(ops[1..][i].input) {
          assert ops[1..][i] == ops[i + 1];
        }
      }
      AddsGrowList(next, ops[1..]);
    }
  }

  /** Eleven words added to the empty list fill two pages: ten rows on the
      first page and one on the second. */
  lemma ElevenWordsTwoPages(ops: seq<Op>)
    requires OnlyAdds(ops) && |ops| == 11
    ensures var r := Run(Initial, ops);
      && PageCount(|r.items|) == 2
      && |PageItems(r.items, 1)| == 10
      && |PageItems(r.items, 2)| == 1
  {
    AddsGrowList(Initial, ops);
  }

  /** Raising an item above every other level brings it to the top of the
      list, and the cursor follows it to page 1. */
  lemma RaisedToTopShowsFirstPage(s: State, id: Id, delta: int)
    requires DistinctIds(s.items)
    requires id in Ids(s.items)
    requires var i := FindIndex(s.items, id);
      forall k :: 0 <= k < |s.items| && k != i ==> s.items[k].level < Relevel(s.items[i], delta).level
    ensures var r := ChangeLevel(s, id, delta);
      && r.items[0] == Relevel(s.items[FindIndex(s.items, id)], delta)
      && r.currentPage == 1
  {
    var i := FindIndex(s.items, id);
    var updated := s.items[i := Relevel(s.items[i], delta)];
    ChangeLevelItems(s, id, delta);
    ChangeLevelFollowsItem(s, id, delta);
    ReplaceKeepsIds(s.items, i, updated[i]);
    forall k | 0 <= k < |updated| && k != i ensures updated[k].level < updated[i].level {
      assert updated[k] == s.items[k];
    }
    TopAfterSort(updated, i);
  }

  /** Sorting a list in which one item holds the only highest level puts
      that item first. */
  lemma TopAfterSort(updated: seq<Item>, i: nat)
    requires i < |updated|
    requires DistinctIds(updated)
    requires forall k :: 0 <= k < |updated| && k != i ==> updated[k].level < updated[i].level
    ensures Sort(updated)[0] == updated[i]
  {
    var items := Sort(updated);
    SortKeepsDistinctIds(updated);
    assert updated[i] in multiset(items);
    var f :| 0 <= f < |items| && items[f] == updated[i];
    OthersStayBelow(updated, i, items, f);
    HighestIsFirst(items, f);
  }

  /** Rearranging items whose position `i` holds the only highest level:
      wherever that item lands, every other item is still below it. */
  lemma OthersStayBelow(updated: seq<Item>, i: nat, items: seq<Item>, f: nat)
    requires i < |updated| && f < |items|
    requires multiset(items) == multiset(updated)
    requires DistinctIds(items)
    requires items[f] == updated[i]
    requires forall k :: 0 <= k < |updated| && k != i ==> updated[k].level < updated[i].level
    ensures forall j :: 0 <= j < |items| && j != f ==> items[j].level < items[f].level
  {
    forall j | 0 <= j < |items| && j != f ensures items[j].level < items[f].level {
      assert items[j] in multiset(updated);
      var k :| 0 <= k < |updated| && updated[k] == items[j];
      assert items[j].id != items[f].id by {
        if j < f {
          assert items[j].id != items[f].id;
        } else {
          assert items[f].id != items[j].id;
        }
      }
    }
  }

  /** In a ranked list, an item whose level beats every other one is first. */
  lemma HighestIsFirst(s: seq<Item>, f: nat)
    requires Sorted(s)
    requires f < |s|
    requires forall j :: 0 <= j < |s| && j != f ==> s[j].level < s[f].level
    ensures f == 0
  {
    assert f != 0 ==> RanksAbove(s[0], s[f]);
  }

  /** A `-` press at level 0 leaves the level at 0, and a `+` press at 999
      leaves it at 999. */
  lemma LevelFloorAndCeiling(it: Item)
    ensures it.level == MinLevel ==> Relevel(it, -1).level == MinLevel
    ensures it.level == MaxLevel ==> Relevel(it, 1).level == MaxLevel
  {
  }

  /** Removing the only item of the last page, while it is shown, drops a
      page and moves the cursor back to the new last page. */
  lemma RemovingLastPageItem(s: State, id: Id)
    requires PageInRange(s)
    requires |s.items| > PageSize && |s.items| % PageSize == 1
    requires s.currentPage == PageCount(|s.items|)
    requires id in Ids(s.items)
    ensures var r := RemoveItem(s, id);
      && PageCount(|r.items|) == PageCount(|s.items|) - 1
      && r.currentPage == s.currentPage - 1
  {
    var n := |s.items|;
    var q := n / PageSize;
    assert n == q * PageSize + 1;
    assert PageCount(n) == q + 1;
    assert PageCount(n - 1) == q;
  }

  /** With 21 items and page 3 shown, a removal leaves page 2 shown. */
  lemma TwentyOneItemsOnPageThree(s: State, id: Id)
    requires |s.items| == 21 && s.currentPage == 3
    requires id in Ids(s.items)
    ensures RemoveItem(s, id).currentPage == 2
  {
    RemovingLastPageItem(s, id);
  }

  /** Blank input to the add handler changes nothing. */
  lemma BlankInputIgnored(s: State, id: Id, createdAt: int)
    ensures AddEntry(s, "", id, createdAt) == s
    ensures AddEntry(s, "   ", id, createdAt) == s
  {
    assert AllWhitespace("   ");
  }

  /** addWord on its own only rejects the empty string: a blank word gets
      through and is stored as an empty word. The blank check lives in the
      add handler. */
  lemma AddWordStoresBlankAsEmpty(s: State, id: Id, createdAt: int)
    ensures var r := AddWord(s, "   ", id, createdAt);
      && |r.items| == |s.items| + 1
      && Item(id, "", 0, createdAt) in r.items
  {
    assert AllWhitespace("   ");
    var r := AddWord(s, "   ", id, createdAt);
    assert |multiset(r.items)| == |multiset(s.items)| + 1;
    assert Item(id, "", 0, createdAt) in multiset(r.items);
  }
}
