/** A session: the user actions the page wires up, applied one after another
    from some starting state, and the invariant every one of them keeps. */
module Session {
  import opened Words
  import opened Text
  import opened Ranking
  import opened Store

  /** One user action: the add handler (with the uid() and Date.now() values
      it would draw), a `-` or `+` press, a confirmed removal, or a press on
      the previous or next button. */
  datatype Op =
    | Add(input: string, id: Id, createdAt: int)
    | Change(target: Id, delta: int)
    | Remove(target: Id)
    | Prev
    | Next

  /** The handler an action triggers. An add grows the list by one unless
      the input is blank, a level change keeps its length, a removal shrinks
      it by one when the id is known, and paging leaves it alone. */
  function Apply(s: State, op: Op): (r: State)
    ensures op.Add? ==> |r.items| == |s.items| + (if AllWhitespace(op.input) then 0 else 1)
    ensures op.Change? ==> |r.items| == |s.items|
    ensures op.Remove? ==> |r.items| == |s.items| - (if op.target in Ids(s.items) then 1 else 0)
    ensures op.Prev? || op.Next? ==> r.items == s.items
  {
    match op
    case Add(input, id, createdAt) => AddEntry(s, input, id, createdAt)
    case Change(target, delta) => ChangeLevel(s, target, delta)
    case Remove(target) => RemoveItem(s, target)
    case Prev => GoPrev(s)
    case Next => GoNext(s)
  }

  /** The actions of `ops`, first to last. */
  function Run(s: State, ops: seq<Op>): State
    decreases |ops|
  {
    if ops == [] then s else Run(Apply(s, ops[0]), ops[1..])
  }

  /** The state a session keeps: ranked, ids distinct, levels in bounds and
      the cursor on an existing page. */
  predicate Good(s: State) {
    && Sorted(s.items)
    && DistinctIds(s.items)
    && LevelsInBounds(s.items)
    && PageInRange(s)
  }

  /** Every add in `ops` uses an id that is not in `used` and that no earlier
      add of `ops` used: uid() is taken to never repeat. */
  predicate FreshAdds(ops: seq<Op>, used: set<Id>)
    decreases |ops|
  {
    ops == [] ||
      if ops[0].Add? then ops[0].id !in used && FreshAdds(ops[1..], used + {ops[0].id})
      else FreshAdds(ops[1..], used)
  }

  /** The ids an action may bring in. */
  function NewIds(op: Op): set<Id> {
    if op.Add? then {op.id} else {}
  }

  /** Every action keeps a good state good, and only an add brings in an id. */
  lemma ApplyKeepsGood(s: State, op: Op)
    requires Good(s)
    requires op.Add? ==> op.id !in Ids(s.items)
    ensures Good(Apply(s, op))
    ensures Ids(Apply(s, op).items) <= Ids(s.items) + NewIds(op)
  {
    match op
    case Add(input, id, createdAt) =>
      if !AllWhitespace(input) {
        TrimIdempotent(input);
        AddWordFollowsItem(s, Trim(input), id, createdAt);
      }
    case Change(target, delta) =>
      if target in Ids(s.items) {
        ChangeLevelFollowsItem(s, target, delta);
      }
    case Remove(target) =>
      if target in Ids(s.items) {
        RemoveItemKeepsOrder(s, target);
      }
    case Prev =>
    case Next =>
  }

  /** Every session of fresh-id actions keeps a good state good. */
  lemma {:induction false} RunKeepsGood(s: State, ops: seq<Op>, used: set<Id>)
    requires Good(s)
    requires Ids(s.items) <= used
    requires FreshAdds(ops, used)
    ensures Good(Run(s, ops))
    decreases |ops|
  {
    if ops != [] {
      ApplyKeepsGood(s, ops[0]);
      if ops[0].Add? {
        RunKeepsGood(Apply(s, ops[0]), ops[1..], used + {ops[0].id});
      } else {
        RunKeepsGood(Apply(s, ops[0]), ops[1..], used);
      }
    }
  }

  /** From the empty list, whatever the user does: ids stay pairwise
      distinct, the list stays ranked, every level stays in `[0, 999]` and the
      cursor stays on an existing page. */
  lemma SessionInvariant(ops: seq<Op>)
    requires FreshAdds(ops, {})
    ensures Good(Run(Initial, ops))
  {
    RunKeepsGood(Initial, ops, {});
  }

  /** In a good state render has nothing to fix: the drawn state is the state. */
  lemma RenderOfGood(s: State)
    requires Good(s)
    ensures Render(s) == s
  {
  }
}
