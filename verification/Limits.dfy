// Where pages fall short.

module Limits {
  // Reachable pages on which the code does less than its documentation says, and
  // how far each shortfall goes.

  import opened Options
  import opened Blocks
  import opened Forests
  import opened ForestAlgebra
  import opened Operations
  import opened Positions
  import opened Pages
  import opened Histories

  function Apply(s: State, ops: seq<Op>): Result<State, Error>
    decreases |ops|
  {
    if ops == [] then Ok(s)
    else match Step(s, ops[0])
      case Err(e) => Err(e)
      case Ok(t) => Apply(t, ops[1..])
  }

  /** Every page reached from an empty one by accepted ops is a well-formed forest. */
  lemma {:induction false} ReachableIsWellFormed(s: State, ops: seq<Op>)
    requires WellFormed(s.forest) && Apply(s, ops).Ok?
    ensures WellFormed(Apply(s, ops).value.forest)
    decreases |ops|
  {
    if ops != [] {
      StepKeepsWellFormed(s, ops[0]);
      ReachableIsWellFormed(Step(s, ops[0]).value, ops[1..]);
    }
  }

  // ----- Refused inverses

  const BLANK := Content([], [])

  const TITLE := Plain(Heading).(level := 1)

  function Leaf(x: BlockId, kind: BlockKind): Forest {
    Node(x, Body(kind, BLANK), Nil, Nil)
  }

  function Over(x: BlockId, kind: BlockKind, kids: Forest): Forest {
    Node(x, Body(kind, BLANK), kids, Nil)
  }

  const TO_BROKEN: seq<Op> := [
    InsertBlock(1, None, None, Body(Plain(Toggle), BLANK)),
    InsertBlock(2, Some(1), None, Body(TITLE, BLANK)),
    SetBlockKind(1, Plain(Toggle), Plain(ListItem))
  ]

  /** A toggle holding a heading, turned into a list item: three accepted ops reach
      a page where making the heading a paragraph is accepted and its inverse is refused. */
  lemma AcceptedOpWithRefusedInverse()
    ensures var start := State(7, "", Nil);
            var end := Apply(start, TO_BROKEN);
            var op := SetBlockKind(2, TITLE, Plain(Paragraph));
            && end == Ok(State(7, "", Over(1, Plain(ListItem), Leaf(2, TITLE))))
            && Step(end.value, op).Ok?
            && Step(Step(end.value, op).value, op.Invert()) == Err(InvalidListChild(1, Heading))
  {
    var s0 := State(7, "", Nil);
    var s1 := State(7, "", Leaf(1, Plain(Toggle)));
    var s2 := State(7, "", Over(1, Plain(Toggle), Leaf(2, TITLE)));
    var s3 := State(7, "", Over(1, Plain(ListItem), Leaf(2, TITLE)));
    var s4 := State(7, "", Over(1, Plain(ListItem), Leaf(2, Plain(Paragraph))));
    assert Step(s0, TO_BROKEN[0]) == Ok(s1);
    assert Ids(Nil) == {} && Ids(s1.forest) == {1};
    assert Step(s1, TO_BROKEN[1]) == Ok(s2);
    assert Ids(s2.forest.kids) == {2} && Ids(s2.forest) == {1, 2};
    assert Step(s2, TO_BROKEN[2]) == Ok(s3);
    assert TO_BROKEN[1..][1..][1..] == [];
    assert Apply(s2, TO_BROKEN[1..][1..]) == Ok(s3);
    assert Apply(s1, TO_BROKEN[1..]) == Ok(s3);
    assert Ids(s3.forest.kids) == {2} && Ids(s3.forest) == {1, 2};
    assert Step(s3, SetBlockKind(2, TITLE, Plain(Paragraph))) == Ok(s4);
    assert Ids(s4.forest.kids) == {2} && Ids(s4.forest) == {1, 2};
  }

  // ----- Moves that are refused after the cut

  lemma CutKeepsOnlyZeroTail(s: seq<Block>, i: nat, n: nat, zeros: seq<Block>)
    requires 0 < n && i + n <= |s| && zeros == seq(n, _ => ZERO_BLOCK)
    requires forall a, b :: 0 <= a < b < |s| ==> s[a].id != s[b].id
    ensures Splice(s, i, n, []) + zeros == s <==> i == |s| - 1 && s[i] == ZERO_BLOCK
  {
    var cut := Splice(s, i, n, []) + zeros;
    if cut == s {
      assert s[|s| - 1] == cut[|s| - 1] == ZERO_BLOCK;
    }
    if i == |s| - 1 && s[i] == ZERO_BLOCK {
      assert s == s[..i] + [s[i]];
    }
  }

  /** The slice left by a move refused for its target is the old slice only when
      the moved block is the last row and is itself the zero row. */
  lemma CutKeepsPageOnlyForZeroTail(f: Forest, op: Op)
    requires Distinct(f) && op.MoveBlock? && op.id in Ids(f)
    ensures CutSlice(f, op) == Flatten(f, None)
        <==> IndexOf(f, op.id) == Size(f) - 1 && Flatten(f, None)[Size(f) - 1] == ZERO_BLOCK
  {
    var s := Flatten(f, None);
    SubtreeIsRun(f, None, op.id);
    forall a, b | 0 <= a < b < |s| ensures s[a].id != s[b].id {
      RowAt(s, f, a);
      RowAt(s, f, b);
    }
    CutKeepsOnlyZeroTail(s, IndexOf(f, op.id), Size(Subtree(f, op.id)), seq(Size(Subtree(f, op.id)), _ => ZERO_BLOCK));
  }

  /** One paragraph, and a move of it after a block that is not there: the op is
      refused and the page has lost the paragraph to a zero row. */
  lemma RefusedMoveLosesRows()
    ensures var f := Leaf(1, Plain(Paragraph));
            var op := MoveBlock(1, None, None, None, Some(9));
            && WellFormed(f) && StepMove(f, op) == Err(BlockNotFound(9)) && CutsThenRejects(f, op)
            && CutSlice(f, op) == [ZERO_BLOCK] && CutSlice(f, op) != Flatten(f, None)
  {
    var f := Leaf(1, Plain(Paragraph));
    assert Ids(Nil) == {} && Ids(f) == {1};
    assert Obeys(ContainerRule, Nil) && RootsAllowed(ContainerRule, Paragraph, Nil);
    assert Remove(f, 1) == Nil;
    LeafRow(1, Body(Plain(Paragraph), BLANK), None);
  }

  // ----- Runs that never meet either shortfall

  /** What a caller can check before each op so that the whole run can be undone:
      the op is accepted, a delete carries the block it names, and a block becomes
      a list item only over lists and paragraphs. */
  ghost predicate Careful(s: Session, actions: seq<Action>)
    decreases |actions|
  {
    actions != [] ==>
      && (actions[0].Do? ==>
            var op := actions[0].op;
            && Step(s.state, op).Ok?
            && TombstoneExact(s.state.forest, op)
            && (op.SetBlockKind? ==> RootsAllowed(ListItemRule, op.toKind.tag, Subtree(s.state.forest, op.id).kids)))
      && Careful(Act(s, actions[0]), actions[1..])
  }

  ghost predicate AllObey(path: seq<State>) {
    forall k :: 0 <= k < |path| ==> Obeys(ListItemRule, path[k].forest)
  }

  /** A careful run keeps the list-item rule on every page it can return to, so
      every op in it is undoable. */
  lemma {:induction false} CarefulRunIsLegal(s: Session, path: seq<State>, actions: seq<Action>)
    requires OnPath(s, path) && AllObey(path) && Careful(s, actions)
    ensures Legal(s, actions)
    decreases |actions|
  {
    if actions == [] {
      return;
    }
    match actions[0]
    case Do(op) =>
      ListRuleMeansFit(s.state, op);
      StepKeepsListRule(s.state, op);
      DoExtendsPath(s, path, op);
      CarefulRunIsLegal(Act(s, Do(op)), Extended(s, path, op), actions[1..]);
    case Undo =>
      if s.undo != [] { UndoMovesBack(s, path); }
      CarefulRunIsLegal(Act(s, Undo), path, actions[1..]);
    case Redo =>
      if s.redo != [] { RedoMovesForward(s, path); }
      CarefulRunIsLegal(Act(s, Redo), path, actions[1..]);
  }
}
