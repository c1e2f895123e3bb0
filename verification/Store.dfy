/** The app's `state` and the operations that change it: addWord (behind the
    add handler's blank check), changeLevel, removeItem, goPrev, goNext, and
    the part of render that re-sorts, clamps the page and picks the rows. */
module Store {
  import opened Words
  import opened Text
  import opened Ranking
  import opened Paging

  /** `state`: the word list and the 1-based page being shown. */
  datatype State = State(items: seq<Item>, currentPage: int)

  /** The state before anything is loaded: no items, first page. */
  const Initial: State := State([], 1)

  /** The cursor points at a page that exists (there is always page 1). */
  predicate PageInRange(s: State) {
    InRange(s.currentPage, |s.items|)
  }

  /** ensureCurrentPageInRange: pull the cursor back onto an existing page,
      touching nothing else. */
  function EnsureCurrentPageInRange(s: State): (r: State)
    ensures r.items == s.items
    ensures PageInRange(r)
    ensures PageInRange(s) ==> r == s
    ensures s.currentPage > PageCount(|s.items|) ==> r.currentPage == PageCount(|s.items|)
    ensures s.currentPage < 1 ==> r.currentPage == 1
  {
    var pc := PageCount(|s.items|);
    var capped := if s.currentPage > pc then s.(currentPage := pc) else s;
    if capped.currentPage < 1 then capped.(currentPage := 1) else capped
  }

  /** The page addWord and changeLevel jump to: the page of the first item
      carrying `id` in the freshly sorted list. That item is shown there. */
  function PageOfId(items: seq<Item>, id: Id): (p: int)
    requires id in Ids(items)
    ensures InRange(p, |items|)
    ensures items[FindIndex(items, id)] in PageItems(items, p)
  {
    var index := FindIndex(items, id);
    PageOfInRange(index, |items|);
    ItemOnItsPage(items, index);
    PageOf(index)
  }

  /** The item addWord stores: the trimmed word at level 0. */
  function NewItem(word: string, id: Id, createdAt: int): Item {
    Item(id, Trim(word), 0, createdAt)
  }

  /** addWord: an empty word changes nothing; any other word is trimmed,
      stored at level 0, the list is re-sorted and the cursor jumps to the
      page of the new item. `id` and `createdAt` stand for uid() and
      Date.now(). */
  function AddWord(s: State, word: string, id: Id, createdAt: int): (r: State)
    ensures word == [] ==> r == s
    ensures word != [] ==> multiset(r.items) == multiset(s.items) + multiset{NewItem(word, id, createdAt)}
    ensures word != [] ==> Sorted(r.items) && PageInRange(r)
  {
    if word == [] then s
    else
      var item := NewItem(word, id, createdAt);
      var items := Sort(s.items + [item]);
      assert item in multiset(items);
      MemberId(item, items);
      State(items, PageOfId(items, id))
  }

  /** doAdd: the input is trimmed first and blank input is dropped, so only
      non-blank words reach addWord. */
  function AddEntry(s: State, input: string, id: Id, createdAt: int): (r: State)
    ensures AllWhitespace(input) ==> r == s
    ensures !AllWhitespace(input) ==>
      && multiset(r.items) == multiset(s.items) + multiset{Item(id, Trim(input), 0, createdAt)}
      && Sorted(r.items)
      && PageInRange(r)
  {
    var v := Trim(input);
    TrimIdempotent(input);
    if v == [] then s else AddWord(s, v, id, createdAt)
  }

  /** The level update of changeLevel: `clamp(level + delta, MIN_LEVEL, MAX_LEVEL)`;
      every other field stays. */
  function Relevel(it: Item, delta: int): (r: Item)
    ensures r == it.(level := r.level)
    ensures MinLevel <= r.level <= MaxLevel
    ensures MinLevel <= it.level + delta <= MaxLevel ==> r.level == it.level + delta
    ensures it.level + delta < MinLevel ==> r.level == MinLevel
    ensures MaxLevel < it.level + delta ==> r.level == MaxLevel
  {
    it.(level := Clamp(it.level + delta, MinLevel, MaxLevel))
  }

  /** changeLevel: an unknown id changes nothing. Otherwise the first item
      with that id gets its clamped new level, the list is re-sorted, and the
      cursor follows the item to its new page. */
  function ChangeLevel(s: State, id: Id, delta: int): (r: State)
    ensures id !in Ids(s.items) ==> r == s
    ensures id in Ids(s.items) ==>
      var was := s.items[FindIndex(s.items, id)];
      && multiset(r.items) == multiset(s.items) - multiset{was} + multiset{Relevel(was, delta)}
      && Sorted(r.items)
      && PageInRange(r)
  {
    var i := FindIndex(s.items, id);
    if i == -1 then s
    else
      var updated := s.items[i := Relevel(s.items[i], delta)];
      var items := Sort(updated);
      assert updated[i] in multiset(items);
      MemberId(updated[i], items);
      EnsureCurrentPageInRange(State(items, PageOfId(items, id)))
  }

  /** The list changeLevel leaves behind for a known id: the old list with
      that item re-levelled, re-sorted. This only unfolds ChangeLevel's body,
      so that proofs about the re-sorted list can name it. */
  lemma ChangeLevelItems(s: State, id: Id, delta: int)
    requires id in Ids(s.items)
    ensures var i := FindIndex(s.items, id);
      ChangeLevel(s, id, delta).items == Sort(s.items[i := Relevel(s.items[i], delta)])
  {
  }

  /** `items.splice(i, 1)`: `s` without position `i`, the rest in order. */
  function Splice(s: seq<Item>, i: nat): (r: seq<Item>)
    requires i < |s|
    ensures |r| == |s| - 1
    ensures forall k :: 0 <= k < i ==> r[k] == s[k]
    ensures forall k :: i <= k < |r| ==> r[k] == s[k + 1]
    ensures multiset(r) == multiset(s) - multiset{s[i]}
  {
    assert s == s[..i] + [s[i]] + s[i + 1..];
    s[..i] + s[i + 1..]
  }

  /** Replacing one item by another with the same id keeps the ids, keeps
      them distinct, and keeps levels in bounds if the new level is. */
  lemma ReplaceKeepsIds(s: seq<Item>, i: nat, x: Item)
    requires i < |s| && x.id == s[i].id
    ensures Ids(s[i := x]) == Ids(s)
    ensures DistinctIds(s) ==> DistinctIds(s[i := x])
    ensures LevelsInBounds(s) && MinLevel <= x.level <= MaxLevel ==> LevelsInBounds(s[i := x])
  {
    var u := s[i := x];
    forall y | y in Ids(u) ensures y in Ids(s) {
      var k :| 0 <= k < |u| && u[k].id == y;
      assert u[k].id == s[k].id;
    }
    forall y | y in Ids(s) ensures y in Ids(u) {
      var k :| 0 <= k < |s| && s[k].id == y;
      assert u[k].id == s[k].id;
    }
  }

  /** The survivors of a splice keep their relative order, so a ranked list
      stays ranked, and distinct ids and level bounds survive too. */
  lemma SpliceKeeps(s: seq<Item>, i: nat)
    requires i < |s|
    ensures Sorted(s) ==> Sorted(Splice(s, i))
    ensures LevelsInBounds(s) ==> LevelsInBounds(Splice(s, i))
    ensures DistinctIds(s) ==> DistinctIds(Splice(s, i))
  {
    var r := Splice(s, i);
    if Sorted(s) {
      forall a, b | 0 <= a < b < |r| ensures RanksAbove(r[a], r[b]) {
        var a' := if a < i then a else a + 1;
        var b' := if b < i then b else b + 1;
        assert r[a] == s[a'] && r[b] == s[b'];
      }
    }
    if LevelsInBounds(s) {
      forall a | 0 <= a < |r| ensures MinLevel <= r[a].level <= MaxLevel {
        var a' := if a < i then a else a + 1;
        assert r[a] == s[a'];
      }
    }
    if DistinctIds(s) {
      forall a, b | 0 <= a < b < |r| ensures r[a].id != r[b].id {
        var a' := if a < i then a else a + 1;
        var b' := if b < i then b else b + 1;
        assert r[a] == s[a'] && r[b] == s[b'];
      }
    }
  }

  /** With distinct ids, splicing out position `i` removes exactly its id. */
  lemma SpliceIds(s: seq<Item>, i: nat)
    requires i < |s|
    requires DistinctIds(s)
    ensures Ids(Splice(s, i)) == Ids(s) - {s[i].id}
  {
    var r := Splice(s, i);
    forall x | x in Ids(r) ensures x in Ids(s) - {s[i].id} {
      var a :| 0 <= a < |r| && r[a].id == x;
      var a' := if a < i then a else a + 1;
      assert r[a] == s[a'];
    }
    forall x | x in Ids(s) - {s[i].id} ensures x in Ids(r) {
      var a :| 0 <= a < |s| && s[a].id == x;
      if a < i {
        assert r[a] == s[a];
      } else {
        assert r[a - 1] == s[a];
      }
    }
  }

  /** removeItem: an unknown id changes nothing. Otherwise the first item
      with that id is spliced out and the cursor is pulled back if its page
      no longer exists; it never moves otherwise. */
  function RemoveItem(s: State, id: Id): (r: State)
    ensures id !in Ids(s.items) ==> r == s
    ensures id in Ids(s.items) ==>
      && |r.items| == |s.items| - 1
      && multiset(r.items) == multiset(s.items) - multiset{s.items[FindIndex(s.items, id)]}
      && PageInRange(r)
      && r.currentPage == Clamp(s.currentPage, 1, PageCount(|r.items|))
      && (PageInRange(s) ==> r.currentPage == Min(s.currentPage, PageCount(|r.items|)))
  {
    var i := FindIndex(s.items, id);
    if i == -1 then s
    else EnsureCurrentPageInRange(s.(items := Splice(s.items, i)))
  }

  /** goPrev: one page back when there is one. */
  function GoPrev(s: State): (r: State)
    ensures r.items == s.items
    ensures r == s || r.currentPage == s.currentPage - 1
    ensures r != s <==> s.currentPage > 1
    ensures PageInRange(s) ==> PageInRange(r) && (r != s <==> InRange(s.currentPage - 1, |s.items|))
  {
    if s.currentPage > 1 then s.(currentPage := s.currentPage - 1) else s
  }

  /** goNext: one page forward when there is one. */
  function GoNext(s: State): (r: State)
    ensures r.items == s.items
    ensures r == s || r.currentPage == s.currentPage + 1
    ensures r != s <==> s.currentPage < PageCount(|s.items|)
    ensures PageInRange(s) ==> PageInRange(r) && (r != s <==> InRange(s.currentPage + 1, |s.items|))
  {
    if s.currentPage < PageCount(|s.items|) then s.(currentPage := s.currentPage + 1) else s
  }

  /** The state changes render makes before drawing: sort, then clamp. A
      state that is already sorted and in range is left alone. */
  function Render(s: State): (r: State)
    ensures multiset(r.items) == multiset(s.items)
    ensures Sorted(r.items)
    ensures r.currentPage == Clamp(s.currentPage, 1, PageCount(|s.items|))
    ensures PageInRange(r)
    ensures Sorted(s.items) && PageInRange(s) ==> r == s
  {
    assert Sorted(s.items) ==> Sort(s.items) == s.items by {
      if Sorted(s.items) { SortOfSorted(s.items); }
    }
    EnsureCurrentPageInRange(s.(items := Sort(s.items)))
  }

  /** What render draws: the `page / pages` label, whether the previous and
      next buttons are enabled, and the rows of the current page. */
  datatype View = View(page: int, pages: int, prevEnabled: bool, nextEnabled: bool, rows: seq<Item>)

  /** The label shows the clamped cursor over the page count, and the rows
      are that page's slice of the ranked list. For a state that is already
      ranked and in range, that is the cursor's own page of its own list. */
  function Show(s: State): (v: View)
    ensures 1 <= v.page <= v.pages
    ensures v.pages == PageCount(|s.items|)
    ensures v.page == Clamp(s.currentPage, 1, v.pages)
    ensures v.rows == PageItems(Sort(s.items), v.page)
    ensures Sorted(s.items) && PageInRange(s) ==> v.page == s.currentPage && v.rows == PageItems(s.items, s.currentPage)
    ensures |v.rows| <= PageSize
    ensures v.rows == [] <==> s.items == []
  {
    var n := Render(s);
    var pc := PageCount(|n.items|);
    View(n.currentPage, pc, !(n.currentPage <= 1), !(n.currentPage >= pc), PageItems(n.items, n.currentPage))
  }

  /** The buttons render enables are exactly the moves goPrev and goNext
      would make on the drawn state. */
  lemma ButtonsMatchNavigation(s: State)
    ensures var n := Render(s);
      && (Show(s).prevEnabled <==> GoPrev(n) != n)
      && (Show(s).nextEnabled <==> GoNext(n) != n)
  {
  }

  /** Drawing is a pure read: drawing the drawn state draws the same thing,
      and render changes nothing the second time. */
  lemma ShowIdempotent(s: State)
    ensures Render(Render(s)) == Render(s)
    ensures Show(Render(s)) == Show(s)
  {
  }

  /** With a fresh id, addWord shows the new item on the current page, and
      ids stay distinct. */
  lemma AddWordFollowsItem(s: State, word: string, id: Id, createdAt: int)
    requires word != []
    requires id !in Ids(s.items)
    ensures var r := AddWord(s, word, id, createdAt); var f := FindIndex(r.items, id);
      && 0 <= f && r.items[f] == NewItem(word, id, createdAt)
      && r.currentPage == PageOf(f)
      && NewItem(word, id, createdAt) in PageItems(r.items, r.currentPage)
      && Ids(r.items) == Ids(s.items) + {id}
      && (DistinctIds(s.items) ==> DistinctIds(r.items))
      && (LevelsInBounds(s.items) ==> LevelsInBounds(r.items))
  {
    var item := NewItem(word, id, createdAt);
    var appended := s.items + [item];
    var r := AddWord(s, word, id, createdAt);
    var f := FindIndex(r.items, id);
    assert r.items[f] in multiset(appended);
    AppendKeeps(s.items, item);
    SameItemsSameIds(r.items, appended);
    if DistinctIds(s.items) {
      SortKeepsDistinctIds(appended);
    }
    if LevelsInBounds(s.items) {
      SameItemsKeepLevels(appended, r.items);
    }
  }

  /** `items.push(item)` with a fresh id adds exactly that id and keeps ids
      distinct; a level-0 item keeps levels in bounds. */
  lemma AppendKeeps(s: seq<Item>, x: Item)
    requires x.id !in Ids(s)
    ensures Ids(s + [x]) == Ids(s) + {x.id}
    ensures DistinctIds(s) ==> DistinctIds(s + [x])
    ensures LevelsInBounds(s) && x.level == 0 ==> LevelsInBounds(s + [x])
  {
    var a := s + [x];
    forall y | y in Ids(a) ensures y in Ids(s) + {x.id} {
      var k :| 0 <= k < |a| && a[k].id == y;
      if k < |s| {
        assert a[k] == s[k];
      }
    }
    forall y | y in Ids(s) ensures y in Ids(a) {
      var k :| 0 <= k < |s| && s[k].id == y;
      assert a[k] == s[k];
    }
    assert a[|s|] == x;
    if DistinctIds(s) {
      forall i, j | 0 <= i < j < |a| ensures a[i].id != a[j].id {
        if j == |s| {
          assert a[i] == s[i];
          MemberId(s[i], s);
        } else {
          assert a[i] == s[i] && a[j] == s[j];
        }
      }
    }
    if LevelsInBounds(s) && x.level == 0 {
      forall i | 0 <= i < |a| ensures MinLevel <= a[i].level <= MaxLevel {
        if i < |s| {
          assert a[i] == s[i];
        }
      }
    }
  }

  /** With distinct ids, changeLevel shows the re-levelled item on the current
      page, keeps the ids, and keeps every level within bounds. */
  lemma ChangeLevelFollowsItem(s: State, id: Id, delta: int)
    requires DistinctIds(s.items)
    requires id in Ids(s.items)
    ensures var r := ChangeLevel(s, id, delta); var f := FindIndex(r.items, id);
      && 0 <= f && r.items[f] == Relevel(s.items[FindIndex(s.items, id)], delta)
      && r.currentPage == PageOf(f)
      && Relevel(s.items[FindIndex(s.items, id)], delta) in PageItems(r.items, r.currentPage)
      && Ids(r.items) == Ids(s.items)
      && DistinctIds(r.items)
      && (LevelsInBounds(s.items) ==> LevelsInBounds(r.items))
  {
    var i := FindIndex(s.items, id);
    var nw := Relevel(s.items[i], delta);
    var updated := s.items[i := nw];
    var items := Sort(updated);
    assert ChangeLevel(s, id, delta).items == items;
    ReplaceKeepsIds(s.items, i, nw);
    SortKeepsDistinctIds(updated);
    SameItemsSameIds(items, updated);
    var f := FindIndex(items, id);
    assert items[f] in multiset(updated);
    var k :| 0 <= k < |updated| && updated[k] == items[f];
    FindIndexUnique(updated, id, k);
    FindIndexUnique(updated, id, i);
    if LevelsInBounds(s.items) {
      SameItemsKeepLevels(updated, items);
    }
  }

  /** removeItem keeps the survivors in their relative order, so a ranked
      list stays ranked, and with distinct ids exactly that id is gone. */
  lemma RemoveItemKeepsOrder(s: State, id: Id)
    requires id in Ids(s.items)
    ensures var r := RemoveItem(s, id); var i := FindIndex(s.items, id);
      && (forall k :: 0 <= k < i ==> r.items[k] == s.items[k])
      && (forall k :: i <= k < |r.items| ==> r.items[k] == s.items[k + 1])
      && (Sorted(s.items) ==> Sorted(r.items))
      && (LevelsInBounds(s.items) ==> LevelsInBounds(r.items))
      && (DistinctIds(s.items) ==> DistinctIds(r.items) && Ids(r.items) == Ids(s.items) - {id})
  {
    var i := FindIndex(s.items, id);
    SpliceKeeps(s.items, i);
    if DistinctIds(s.items) {
      SpliceIds(s.items, i);
    }
  }
}
