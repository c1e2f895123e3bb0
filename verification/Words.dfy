/** Words in the list, the level bounds, and the id helpers that app.js
    shares between its operations. */
module Words {

  /** Lowest and highest proficiency level an item may carry. */
  const MinLevel: int := 0
  const MaxLevel: int := 999

  /** The string uid() produces; only equality between ids matters. */
  type Id = string

  /** One tracked word: `{id, word, level, createdAt}`. `createdAt` is the
      millisecond timestamp taken when the word was added. */
  datatype Item = Item(id: Id, word: string, level: int, createdAt: int)

  function Max(a: int, b: int): int { if a < b then b else a }

  function Min(a: int, b: int): int { if a < b then a else b }

  /** `clamp(n, min, max)`, that is `Math.max(min, Math.min(max, n))`. */
  function Clamp(n: int, lo: int, hi: int): (r: int)
    ensures lo <= hi ==> lo <= r <= hi
    ensures lo <= n <= hi ==> r == n
    ensures lo <= hi && n < lo ==> r == lo
    ensures lo <= hi && hi < n ==> r == hi
  {
    Max(lo, Min(hi, n))
  }

  /** The ids present in `s`. */
  function Ids(s: seq<Item>): set<Id> {
    set k | 0 <= k < |s| :: s[k].id
  }

  /** No two positions of `s` hold the same id. */
  predicate DistinctIds(s: seq<Item>) {
    forall i, j :: 0 <= i < j < |s| ==> s[i].id != s[j].id
  }

  /** Every level lies in `[MinLevel, MaxLevel]`. */
  predicate LevelsInBounds(s: seq<Item>) {
    forall i :: 0 <= i < |s| ==> MinLevel <= s[i].level <= MaxLevel
  }

  lemma IdsCons(s: seq<Item>)
    requires s != []
    ensures Ids(s) == {s[0].id} + Ids(s[1..])
  {
    forall id | id in Ids(s) ensures id == s[0].id || id in Ids(s[1..]) {
      var k :| 0 <= k < |s| && s[k].id == id;
      if k > 0 {
        assert s[1..][k - 1] == s[k];
      }
    }
    forall id | id in Ids(s[1..]) ensures id in Ids(s) {
      var k :| 0 <= k < |s[1..]| && s[1..][k].id == id;
      assert s[k + 1] == s[1..][k];
    }
  }

  lemma MemberId(y: Item, s: seq<Item>)
    requires y in s
    ensures y.id in Ids(s)
  {
    var k :| 0 <= k < |s| && s[k] == y;
  }

  /** Two arrangements of the same items carry the same ids. */
  lemma SameItemsSameIds(a: seq<Item>, b: seq<Item>)
    requires multiset(a) == multiset(b)
    ensures Ids(a) == Ids(b)
  {
    forall id | id in Ids(a) ensures id in Ids(b) {
      var k :| 0 <= k < |a| && a[k].id == id;
      assert a[k] in multiset(b);
      MemberId(a[k], b);
    }
    forall id | id in Ids(b) ensures id in Ids(a) {
      var k :| 0 <= k < |b| && b[k].id == id;
      assert b[k] in multiset(a);
      MemberId(b[k], a);
    }
  }

  /** Rearranging items cannot move a level out of bounds. */
  lemma SameItemsKeepLevels(a: seq<Item>, b: seq<Item>)
    requires multiset(a) == multiset(b)
    requires LevelsInBounds(a)
    ensures LevelsInBounds(b)
  {
    forall i | 0 <= i < |b| ensures MinLevel <= b[i].level <= MaxLevel {
      assert b[i] in multiset(a);
      var k :| 0 <= k < |a| && a[k] == b[i];
    }
  }

  /** `items.findIndex(x => x.id === id)`: the first position holding `id`,
      or -1 when no item has it. */
  function FindIndex(s: seq<Item>, id: Id): (r: int)
    ensures -1 <= r < |s|
    ensures r == -1 <==> id !in Ids(s)
    ensures 0 <= r ==> s[r].id == id
    ensures forall k :: 0 <= k < r ==> s[k].id != id
  {
    if s == [] then -1
    else
      IdsCons(s);
      if s[0].id == id then 0
      else
        var k := FindIndex(s[1..], id);
        if k == -1 then -1 else k + 1
  }

  /** With distinct ids, the item found is the only one carrying `id`. */
  lemma FindIndexUnique(s: seq<Item>, id: Id, k: int)
    requires DistinctIds(s)
    requires 0 <= k < |s| && s[k].id == id
    ensures FindIndex(s, id) == k
  {
    MemberId(s[k], s);
  }
}
