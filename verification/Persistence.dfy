/** loadState's field fallbacks and start-up. localStorage and JSON are not
    modelled: a stored snapshot is given already parsed, as far as loadState
    inspects it. */
module Persistence {
  import opened Words
  import opened Ranking
  import opened Paging
  import opened Store
  import opened Session

  /** The parsed `currentPage` field: missing, an integer number, or any
      other value (a string, a fraction, null, ...). */
  datatype PageField = Absent | IntegerValue(n: int) | OtherValue

  /** The parsed `items` field: an array of items, or anything else. */
  datatype ItemsField = ItemsArray(items: seq<Item>) | NotArray

  /** What localStorage holds under STORAGE_KEY: nothing, text that JSON.parse
      rejects or that makes reading its fields throw (such as `null`), or a
      parsed value whose fields can be read. */
  datatype Stored = NothingStored | Unparsable | Snapshot(itemsField: ItemsField, pageField: PageField)

  /** `parsed.currentPage && Number.isInteger(parsed.currentPage) ? parsed.currentPage : 1`:
      a non-zero integer is kept, everything else (0 is falsy) becomes 1. */
  function LoadPage(f: PageField): (p: int)
    ensures p != 0
    ensures f.IntegerValue? && f.n != 0 ==> p == f.n
    ensures !(f.IntegerValue? && f.n != 0) ==> p == 1
  {
    match f
    case IntegerValue(n) => if n != 0 then n else 1
    case _ => 1
  }

  /** loadState, run on the initial state: nothing stored keeps it, text that
      does not parse resets it, and a parsed object contributes its `items`
      array (else an empty list) and its page. The page is not checked
      against the item count here. */
  function LoadState(stored: Stored): (r: State)
    ensures !stored.Snapshot? ==> r == Initial
    ensures stored.Snapshot? ==>
      && r.items == (if stored.itemsField.ItemsArray? then stored.itemsField.items else [])
      && r.currentPage == LoadPage(stored.pageField)
  {
    match stored
    case NothingStored => Initial
    case Unparsable => Initial
    case Snapshot(itemsField, pageField) =>
      State(if itemsField.ItemsArray? then itemsField.items else [], LoadPage(pageField))
  }

  /** saveState, as the object JSON.stringify writes. loadState reads the
      items back as they were, and the page too unless it is 0, which reads
      back as 1. */
  function SaveState(s: State): (r: Stored)
    ensures LoadState(r).items == s.items
    ensures s.currentPage != 0 ==> LoadState(r) == s
    ensures s.currentPage == 0 ==> LoadState(r) == s.(currentPage := 1)
  {
    Snapshot(ItemsArray(s.items), IntegerValue(s.currentPage))
  }

  /** Start-up: loadState, sortItems, then the first render. Whatever was
      stored, the app starts ranked and on an existing page. */
  function Boot(stored: Stored): (r: State)
    ensures Sorted(r.items)
    ensures PageInRange(r)
    ensures multiset(r.items) == multiset(LoadState(stored).items)
    ensures !stored.Snapshot? ==> r == Initial
    ensures r.currentPage == Clamp(LoadState(stored).currentPage, 1, PageCount(|LoadState(stored).items|))
  {
    var loaded := LoadState(stored);
    Render(loaded.(items := Sort(loaded.items)))
  }

  /** What saveState writes, loadState reads back, for every page the cursor
      can be on. */
  lemma LoadSaved(s: State)
    requires PageInRange(s)
    ensures LoadState(SaveState(s)) == s
  {
  }

  /** Reopening the app after a save restores a good session exactly. */
  lemma BootSaved(s: State)
    requires Good(s)
    ensures Boot(SaveState(s)) == s
  {
    SortOfSorted(s.items);
  }
}
