// The browser's copy of a page: an id order and a map of live blocks, kept in
// step with the server by replaying its structural operations.

module CollabClient {
  import opened Options
  import opened Blocks
  import opened Forests
  import opened ForestAlgebra
  import opened Operations
  import opened Positions
  import opened RowLaws

  // What the browser keeps per block (its rope boundaries are not modelled).
  datatype LiveBlock = LiveBlock(parent: Option<BlockId>, kind: BlockKind, text: seq<Byte>, marks: seq<Mark>)

  function LiveOf(b: Block): LiveBlock {
    LiveBlock(b.parent, b.body.kind, b.body.content.text, b.body.content.marks)
  }

  function IdsOf(blocks: seq<Block>): (ids: seq<BlockId>) {
    seq(|blocks|, i requires 0 <= i < |blocks| => blocks[i].id)
  }

  /** Every row is held under its id with the same parent, kind, text and marks. */
  ghost predicate Holds(live: map<BlockId, LiveBlock>, rows: seq<Block>) {
    forall b :: b in rows ==> b.id in live && live[b.id] == LiveOf(b)
  }

  /** The client's order is the page's order and its map holds the page's rows and no others. */
  ghost predicate Mirrors(order: seq<BlockId>, live: map<BlockId, LiveBlock>, f: Forest) {
    order == IdsOf(Flatten(f, None)) && live.Keys == Ids(f) && Holds(live, Flatten(f, None))
  }

  /** The ids in the order of the rows, and under each id what its row holds. */
  ghost predicate ShowsRows(order: seq<BlockId>, live: map<BlockId, LiveBlock>, rows: seq<Block>) {
    && |order| == |rows| && (forall id :: id in live ==> Has(rows, id))
    && forall i :: 0 <= i < |rows| ==>
         && order[i] == rows[i].id && rows[i].id in live
         && live[rows[i].id].parent == rows[i].parent && live[rows[i].id].kind == rows[i].body.kind
         && live[rows[i].id].text == rows[i].body.content.text && live[rows[i].id].marks == rows[i].body.content.marks
  }

  lemma ShowsItsRows(order: seq<BlockId>, live: map<BlockId, LiveBlock>, f: Forest)
    requires Distinct(f) && Mirrors(order, live, f)
    ensures ShowsRows(order, live, Flatten(f, None))
  {
    var rows := Flatten(f, None);
    forall id | id in live ensures Has(rows, id) {
      HasExactly(rows, f, id);
    }
    forall i | 0 <= i < |rows| ensures order[i] == rows[i].id && rows[i] in rows {
    }
  }

  /** `live` knows the parents of every block of `f`. */
  ghost predicate KnowsParents(live: map<BlockId, LiveBlock>, f: Forest) {
    forall x :: x in Ids(f) ==> x in live && live[x].parent == ParentOf(f, None, x)
  }

  lemma IdsOfSplice(s: seq<Block>, i: nat, n: nat, g: seq<Block>)
    requires i + n <= |s|
    ensures IdsOf(Splice(s, i, n, g)) == Splice(IdsOf(s), i, n, IdsOf(g))
  {
  }

  lemma RowsAreIds(f: Forest)
    requires Distinct(f)
    ensures forall x :: x in Ids(f) <==> x in IdsOf(Flatten(f, None))
    ensures forall b :: b in Flatten(f, None) ==> b.id in Ids(f) && b == Block(b.id, ParentOf(f, None, b.id), BodyOf(f, b.id))
    ensures forall x :: x in Ids(f) ==> Block(x, ParentOf(f, None, x), BodyOf(f, x)) in Flatten(f, None)
  {
    var s := Flatten(f, None);
    forall x | x in Ids(f) ensures x in IdsOf(s) && Block(x, ParentOf(f, None, x), BodyOf(f, x)) in s {
      Located(f, None, x);
      assert IdsOf(s)[IndexOf(f, x)] == x;
    }
    forall k | 0 <= k < |s| ensures s[k].id in Ids(f) && s[k] == Block(s[k].id, ParentOf(f, None, s[k].id), BodyOf(f, s[k].id)) {
      RowAt(s, f, k);
    }
  }

  lemma MirrorKnowsParents(order: seq<BlockId>, live: map<BlockId, LiveBlock>, f: Forest)
    requires Distinct(f) && Mirrors(order, live, f)
    ensures KnowsParents(live, f)
  {
    RowsAreIds(f);
  }

  function ParentIn(live: map<BlockId, LiveBlock>, id: BlockId): Option<BlockId> {
    if id in live then live[id].parent else None
  }

  // ----- Index walks

  method FindId(order: seq<BlockId>, id: BlockId) returns (i: int)
    ensures -1 <= i < |order|
    ensures i >= 0 ==> order[i] == id
    ensures i == -1 <==> id !in order
  {
    i := 0;
    while i < |order|
      invariant 0 <= i <= |order|
      invariant id !in order[..i]
    {
      if order[i] == id {
        return;
      }
      i := i + 1;
    }
    i := -1;
  }

  /** The position of a known id in the order is its position in the forest. */
  lemma FoundAt(order: seq<BlockId>, f: Forest, i: int)
    requires Distinct(f) && order == IdsOf(Flatten(f, None)) && 0 <= i < |order|
    ensures order[i] in Ids(f) && IndexOf(f, order[i]) == i
  {
    RowAt(Flatten(f, None), f, i);
  }

  /** indexOf on a known id. */
  method FindPlaced(order: seq<BlockId>, id: BlockId, ghost f: Forest) returns (i: nat)
    requires Distinct(f) && order == IdsOf(Flatten(f, None)) && id in Ids(f)
    ensures i == IndexOf(f, id) < |order| && order[i] == id
  {
    RowsAreIds(f);
    i := FindId(order, id);
    FoundAt(order, f, i);
  }

  method PredecessorOf(order: seq<BlockId>, live: map<BlockId, LiveBlock>, id: BlockId, ghost f: Forest) returns (prev: Option<BlockId>)
    requires Distinct(f) && order == IdsOf(Flatten(f, None)) && KnowsParents(live, f) && id in Ids(f)
    ensures prev == PrevOf(f, id)
  {
    var parent := ParentIn(live, id);
    ghost var s := Flatten(f, None);
    var idx: int := FindPlaced(order, id, f);
    PrevIsNearest(f, None, id);
    if PrevOf(f, id).Some? {
      Located(f, None, PrevOf(f, id).value);
    }
    var j := idx - 1;
    while j >= 0
      invariant -1 <= j < idx
      invariant forall k :: j < k < idx ==> s[k].parent != parent
    {
      RowAt(s, f, j);
      if ParentIn(live, order[j]) == parent {
        return Some(order[j]);
      }
      j := j - 1;
    }
    return None;
  }

  method IsDescendant(live: map<BlockId, LiveBlock>, id: BlockId, ancestor: BlockId, ghost f: Forest) returns (below: bool)
    requires Distinct(f) && KnowsParents(live, f) && id in Ids(f)
    ensures below <==> ancestor in Ids(f) && id in Below(f, ancestor)
  {
    var cur := ParentIn(live, id);
    ghost var at := id;
    if ancestor in Ids(f) {
      SubtreeIds(f, ancestor);
    }
    while cur != None
      invariant at in Ids(f) && cur == ParentOf(f, None, at)
      invariant ancestor in Ids(f) ==> (id in Below(f, ancestor) <==> at in Below(f, ancestor))
      decreases IndexOf(f, at)
    {
      if ancestor in Ids(f) {
        ParentLinksClosed(f, None, ancestor, at);
      }
      RootsHaveNoParent(f, None, at);
      ParentIsEarlier(f, None, at);
      if cur.value == ancestor {
        return true;
      }
      at := cur.value;
      cur := ParentIn(live, cur.value);
    }
    if ancestor in Ids(f) {
      ParentLinksClosed(f, None, ancestor, at);
    }
    return false;
  }

  method SubtreeEndIndex(order: seq<BlockId>, live: map<BlockId, LiveBlock>, id: BlockId, ghost f: Forest) returns (j: nat)
    requires Distinct(f) && order == IdsOf(Flatten(f, None)) && KnowsParents(live, f)
    ensures j == (if id in Ids(f) then IndexOf(f, id) + Size(Subtree(f, id)) else 0) <= |order|
  {
    RowsAreIds(f);
    var i := FindId(order, id);
    if id in Ids(f) {
      SubtreeIsRun(f, None, id);
      FoundAt(order, f, i);
    }
    ghost var end := if id in Ids(f) then i + Size(Subtree(f, id)) else 0;
    j := i + 1;
    while j < |order|
      invariant i < j <= end && (id !in Ids(f) ==> j == 0)
    {
      FoundAt(order, f, j);
      if id in Ids(f) {
        SubtreePositions(f, id, order[j]);
      }
      var below := IsDescendant(live, order[j], id, f);
      if !below {
        break;
      }
      j := j + 1;
    }
  }

  /** Where a block goes. The end for a parent that is not there, the start for a
      sibling that is not. */
  method InsertIndexAfterInParent(order: seq<BlockId>, live: map<BlockId, LiveBlock>, parent: Option<BlockId>, after: Option<BlockId>, ghost f: Forest)
    returns (idx: nat)
    requires Distinct(f) && order == IdsOf(Flatten(f, None)) && KnowsParents(live, f)
    ensures after.Some? && after.value !in Ids(f) ==> idx == 0
    ensures parent.Some? && after == None && parent.value !in Ids(f) ==> idx == |order|
    ensures (parent.Some? ==> parent.value in Ids(f)) && (after.Some? ==> after.value in Ids(f)) ==> idx == PlaceIndex(f, parent, after)
  {
    if after == None {
      if parent == None {
        return 0;
      }
      RowsAreIds(f);
      var parentIdx := FindId(order, parent.value);
      if parentIdx == -1 {
        return |order|;
      }
      FoundAt(order, f, parentIdx);
      return parentIdx + 1;
    }
    idx := SubtreeEndIndex(order, live, after.value, f);
  }

  // ----- Replaying the server's operations

  /** Blocks outside a removed subtree keep their parents. */
  lemma RemoveKeepsParents(f: Forest, x: BlockId, live: map<BlockId, LiveBlock>)
    requires Distinct(f) && x in Ids(f) && KnowsParents(live, f)
    ensures KnowsParents(live, Remove(f, x)) && Distinct(Remove(f, x))
  {
    var s, g := Flatten(f, None), Remove(f, x);
    RemoveIds(f, x);
    SubtreeIsRun(f, None, x);
    RowsAreIds(f);
    RowsAreIds(g);
    forall y | y in Ids(g) ensures ParentOf(g, None, y) == ParentOf(f, None, y) {
      var row := Block(y, ParentOf(g, None, y), BodyOf(g, y));
      assert row in Flatten(g, None);
      assert row in s;
    }
  }

  lemma HoldsSplice(live: map<BlockId, LiveBlock>, s: seq<Block>, i: nat, n: nat, g: seq<Block>)
    requires i + n <= |s| && Holds(live, s[..i]) && Holds(live, s[i + n..]) && Holds(live, g)
    ensures Holds(live, Splice(s, i, n, g))
  {
  }

  /** Rows other than the one at `i` do not name its id, so changing that entry leaves them held. */
  lemma OtherRows(f: Forest, x: BlockId, live: map<BlockId, LiveBlock>, live': map<BlockId, LiveBlock>)
    requires Distinct(f) && x in Ids(f) && Holds(live, Flatten(f, None))
    requires forall y :: y in live && y != x ==> y in live' && live'[y] == live[y]
    ensures var s, i := Flatten(f, None), IndexOf(f, x);
            Holds(live', s[..i]) && Holds(live', s[i + 1..])
  {
    var s, i := Flatten(f, None), IndexOf(f, x);
    forall k | 0 <= k < |s| && k != i ensures s[k].id != x {
      RowAt(s, f, k);
    }
  }

  function Without(order: seq<BlockId>, id: BlockId): seq<BlockId> {
    if order == [] then []
    else (if order[0] == id then [] else [order[0]]) + Without(order[1..], id)
  }

  lemma {:induction false} WithoutAbsent(order: seq<BlockId>, id: BlockId)
    requires id !in order
    ensures Without(order, id) == order
  {
    if order != [] {
      WithoutAbsent(order[1..], id);
    }
  }

  /** Filtering out an id that occurs once cuts exactly its position. */
  lemma {:induction false} WithoutOne(order: seq<BlockId>, i: nat)
    requires i < |order| && order[i] !in order[..i] && order[i] !in order[i + 1..]
    ensures Without(order, order[i]) == Splice(order, i, 1, [])
  {
    if i == 0 {
      WithoutAbsent(order[1..], order[0]);
    } else {
      var tail := order[1..];
      assert tail[..i - 1] == order[..i][1..] && tail[i..] == order[i + 1..];
      WithoutOne(tail, i - 1);
      assert Splice(order, i, 1, []) == [order[0]] + Splice(tail, i - 1, 1, []);
    }
  }

  class CollabPage {
    var order: seq<BlockId>
    var live: map<BlockId, LiveBlock>

    ghost predicate Shows(f: Forest)
      reads this
    {
      Distinct(f) && Mirrors(order, live, f)
    }

    constructor ()
      ensures order == [] && live == map[] && Shows(Nil)
    {
      order, live := [], map[];
    }

    /** A client that shows the page before an op the server accepted shows the
        page after it, whole-subtree moves included. */
    method ApplyStructural(op: Op, ghost f: Forest)
      requires Shows(f) && WellFormed(f)
      requires !op.SetTitle? ==> StepForest(f, op).Ok?
      modifies this
      ensures Shows(if op.SetTitle? then f else StepForest(f, op).value)
      ensures forall t, u, after :: Changes(t, Flatten(f, None), op, u, after) ==> ShowsRows(order, live, after)
    {
      Replay(op, f);
      ghost var g := if op.SetTitle? then f else StepForest(f, op).value;
      KeepsDistinct(f, op);
      ShowsItsRows(order, live, g);
      forall t, u, after | Changes(t, Flatten(f, None), op, u, after) ensures after == Flatten(g, None) {
        StepOnRows(State(0, t, f), op, u, after);
      }
    }

    method Replay(op: Op, ghost f: Forest)
      requires Shows(f) && WellFormed(f)
      requires !op.SetTitle? ==> StepForest(f, op).Ok?
      modifies this
      ensures Shows(if op.SetTitle? then f else StepForest(f, op).value)
    {
      KeepsDistinct(f, op);
      match op
      case InsertBlock(id, _, _, _) =>
        if id !in live {
          ReplayInsert(op, f);
        }
      case DeleteBlock(_, _) => ReplayDelete(op, f);
      case SetBlockKind(id, _, toKind) =>
        if id in live {
          Located(f, None, id);
          ReplayBody(id, live[id].(kind := toKind), BodyOf(f, id).(kind := toKind), f);
        }
      case SetBlockContent(id, _, content) =>
        if id in live {
          Located(f, None, id);
          ReplayBody(id, live[id].(text := content.text, marks := content.marks), BodyOf(f, id).(content := content), f);
        }
      case MoveBlock(_, _, _, _, _) => ReplayMove(op, f);
      case SetTitle(_, _, _) =>
    }

    lemma KeepsDistinct(f: Forest, op: Op)
      requires WellFormed(f) && (!op.SetTitle? ==> StepForest(f, op).Ok?)
      ensures !op.SetTitle? ==> Distinct(StepForest(f, op).value)
    {
      if !op.SetTitle? {
        StepKeepsWellFormed(State(0, "", f), op);
      }
    }

    method ReplayInsert(op: Op, ghost f: Forest)
      requires Shows(f) && op.InsertBlock? && StepInsert(f, op).Ok? && op.id !in live
      modifies this
      ensures Mirrors(order, live, StepInsert(f, op).value)
    {
      MirrorKnowsParents(order, live, f);
      InsertMirrors(order, live, f, op);
      live := live[op.id := LiveBlock(op.parent, op.body.kind, op.body.content.text, op.body.content.marks)];
      var idx := InsertIndexAfterInParent(order, live, op.parent, op.after, f);
      order := Splice(order, idx, 0, [op.id]);
    }

    method ReplayDelete(op: Op, ghost f: Forest)
      requires Shows(f) && op.DeleteBlock? && StepDelete(f, op).Ok?
      modifies this
      ensures Mirrors(order, live, StepDelete(f, op).value)
    {
      var id := op.tombstone.id;
      ghost var s, i, t := Flatten(f, None), IndexOf(f, id), Subtree(f, id);
      assert Size(t) == 1 && Ids(t) == {id} by { assert Size(Nil) == 0 && Ids(Nil) == {}; }
      SubtreeIsRun(f, None, id);
      RemoveIds(f, id);
      IdsOfSplice(s, i, 1, []);
      assert IdsOf([]) == [];
      forall k | 0 <= k < |order| && k != i ensures order[k] != id {
        FoundAt(order, f, k);
      }
      Located(f, None, id);
      WithoutOne(order, i);
      OtherRows(f, id, live, live - {id});
      HoldsSplice(live - {id}, s, i, 1, []);
      order := Without(order, id);
      live := live - {id};
    }

    method ReplayBody(id: BlockId, entry: LiveBlock, ghost body: Body, ghost f: Forest)
      requires Shows(f) && id in live
      requires entry == LiveOf(Block(id, live[id].parent, body))
      modifies this`live
      ensures Mirrors(order, live, Relabel(f, id, body))
    {
      BodyMirrors(order, live, f, id, entry, body);
      live := live[id := entry];
    }

    method ReplayMove(op: Op, ghost f: Forest)
      requires Shows(f) && op.MoveBlock? && StepMove(f, op).Ok?
      modifies this
      ensures Mirrors(order, live, StepMove(f, op).value)
    {
      CutMirrors(order, live, f, op);
      MoveMirrors(order, live, f, op);
      order := MovedOrder(order, live, op, f);
      if op.id in live {
        live := live[op.id := live[op.id].(parent := op.toParent)];
      }
    }
  }

  /** The id order after a move: the subtree's run of ids cut and spliced back in. */
  method MovedOrder(order: seq<BlockId>, live: map<BlockId, LiveBlock>, op: Op, ghost f: Forest) returns (moved: seq<BlockId>)
    requires Distinct(f) && Mirrors(order, live, f) && op.MoveBlock? && StepMove(f, op).Ok?
    ensures MoveIndices(f, op) && IndexOf(f, op.id) + Size(Subtree(f, op.id)) <= |order| == Size(f)
    ensures moved == SpliceMoved(order, IndexOf(f, op.id), Size(Subtree(f, op.id)), TargetIndex(f, op))
  {
    CutMirrors(order, live, f, op);
    MirrorKnowsParents(order, live, f);
    var idx := FindPlaced(order, op.id, f);
    var end := SubtreeEndIndex(order, live, op.id, f);
    var subtree := order[idx..end];
    var without := order[..idx] + order[end..];
    ghost var n := Size(Subtree(f, op.id));
    CutIsSplice(order, idx, n, end);
    var insertIdx := InsertIndexAfterInParent(without, live, op.toParent, op.to, Remove(f, op.id));
    assert insertIdx == TargetIndex(f, op);
    PasteIsSplice(order, idx, n, end, insertIdx);
    moved := Splice(without, insertIdx, 0, subtree);
  }

  lemma CutIsSplice(order: seq<BlockId>, i: nat, n: nat, end: nat)
    requires end == i + n <= |order|
    ensures order[..i] + order[end..] == Splice(order, i, n, []) && order[i..end] == order[i..i + n]
  {
  }

  lemma PasteIsSplice(order: seq<BlockId>, i: nat, n: nat, end: nat, j: nat)
    requires end == i + n <= |order| && j <= |order| - n
    ensures Splice(order[..i] + order[end..], j, 0, order[i..end]) == SpliceMoved(order, i, n, j)
  {
    CutIsSplice(order, i, n, end);
  }

  /** A move's target names a position once the subtree is out. */
  ghost predicate MoveIndices(f: Forest, op: Op)
    requires op.MoveBlock?
  {
    && op.id in Ids(f)
    && var g := Remove(f, op.id);
      && (op.toParent.Some? ==> op.toParent.value in Ids(g))
      && (op.to.Some? ==> op.to.value in Ids(g))
      && PlaceIndex(g, op.toParent, op.to) <= Size(f) - Size(Subtree(f, op.id))
  }

  ghost function TargetIndex(f: Forest, op: Op): nat
    requires op.MoveBlock? && MoveIndices(f, op)
  {
    PlaceIndex(Remove(f, op.id), op.toParent, op.to)
  }

  /** Cut the run of `n` at `i` and put it back at `j`. */
  function SpliceMoved<T>(s: seq<T>, i: nat, n: nat, j: nat): seq<T>
    requires i + n <= |s| && j <= |s| - n
  {
    Splice(Splice(s, i, n, []), j, 0, s[i..i + n])
  }

  /** The same, with `row` in place of the run's first. */
  ghost function SpliceReparented(s: seq<Block>, i: nat, n: nat, j: nat, row: Block): seq<Block>
    requires 0 < n && i + n <= |s| && j <= |s| - n
  {
    Splice(Splice(s, i, n, []), j, 0, [row] + s[i..i + n][1..])
  }

  /** With the subtree's ids out, the client is ready to resolve the move's target. */
  lemma CutMirrors(order: seq<BlockId>, live: map<BlockId, LiveBlock>, f: Forest, op: Op)
    requires Distinct(f) && Mirrors(order, live, f) && op.MoveBlock? && StepMove(f, op).Ok?
    ensures op.id in Ids(f)
    ensures MoveIndices(f, op)
    ensures var i, n, g := IndexOf(f, op.id), Size(Subtree(f, op.id)), Remove(f, op.id);
      && i + n <= |order| == Size(f) && Splice(order, i, n, []) == IdsOf(Flatten(g, None))
      && KnowsParents(live, g) && Distinct(g)
  {
    var x, g := op.id, Remove(f, op.id);
    MirrorKnowsParents(order, live, f);
    SubtreeIsRun(f, None, x);
    MovedTree(f, op);
    PlaceInIds(g, op.toParent, op.to);
    InsertIsSplice(g, None, op.toParent, op.to, Nil);
    RemoveKeepsParents(f, x, live);
    IdsOfSplice(Flatten(f, None), IndexOf(f, x), Size(Subtree(f, x)), []);
    assert IdsOf([]) == [];
  }

  lemma MovedRows(s: seq<Block>, live: map<BlockId, LiveBlock>, i: nat, n: nat, j: nat, row: Block)
    requires 0 < n && i + n <= |s| && j <= |s| - n && row.id == s[i].id
    requires Holds(live, s[..i]) && Holds(live, s[i + 1..]) && Holds(live, [row])
    ensures var t := SpliceReparented(s, i, n, j, row);
      Holds(live, t) && IdsOf(t) == SpliceMoved(IdsOf(s), i, n, j)
  {
    MovedRowsHeld(s, live, i, n, j, row);
    MovedIds(s, i, n, j, row);
  }

  lemma MovedRowsHeld(s: seq<Block>, live: map<BlockId, LiveBlock>, i: nat, n: nat, j: nat, row: Block)
    requires 0 < n && i + n <= |s| && j <= |s| - n
    requires Holds(live, s[..i]) && Holds(live, s[i + 1..]) && Holds(live, [row])
    ensures Holds(live, SpliceReparented(s, i, n, j, row))
  {
    var tail := s[i..i + n][1..];
    RunTail(s, i, n);
    assert Holds(live, tail) && Holds(live, s[i + n..]);
    HoldsSplice(live, s, i, n, []);
    HoldsSplice(live, Splice(s, i, n, []), j, 0, [row] + tail);
  }

  lemma RunTail(s: seq<Block>, i: nat, n: nat)
    requires 0 < n && i + n <= |s|
    ensures s[i..i + n][1..] == s[i + 1..][..n - 1] && s[i + n..] == s[i + 1..][n - 1..]
  {
  }

  lemma MovedIds(s: seq<Block>, i: nat, n: nat, j: nat, row: Block)
    requires 0 < n && i + n <= |s| && j <= |s| - n && row.id == s[i].id
    ensures IdsOf(SpliceReparented(s, i, n, j, row)) == SpliceMoved(IdsOf(s), i, n, j)
  {
    var run := [row] + s[i..i + n][1..];
    IdsOfSplice(s, i, n, []);
    assert IdsOf([]) == [];
    IdsOfSplice(Splice(s, i, n, []), j, 0, run);
    assert IdsOf(run) == IdsOf(s)[i..i + n];
  }

  /** Overwriting one entry's body completes a relabelling. */
  lemma BodyMirrors(order: seq<BlockId>, live: map<BlockId, LiveBlock>, f: Forest, id: BlockId, entry: LiveBlock, body: Body)
    requires Distinct(f) && Mirrors(order, live, f) && id in live
    requires entry == LiveOf(Block(id, live[id].parent, body))
    ensures Mirrors(order, live[id := entry], Relabel(f, id, body))
  {
    var s, i, row := Flatten(f, None), IndexOf(f, id), Block(id, ParentOf(f, None, id), body);
    MirrorKnowsParents(order, live, f);
    Located(f, None, id);
    RelabelFlattens(f, None, id, body);
    RelabelKeepsTree(f, None, id, body);
    OtherRows(f, id, live, live[id := entry]);
    HoldsSplice(live[id := entry], s, i, 1, [row]);
    OverwriteKeepsIds(s, i, row);
  }

  lemma OverwriteKeepsIds(s: seq<Block>, i: nat, row: Block)
    requires i < |s| && row.id == s[i].id
    ensures IdsOf(Splice(s, i, 1, [row])) == IdsOf(s)
  {
  }

  lemma HoldsMore(live: map<BlockId, LiveBlock>, s: seq<Block>, row: Block, i: nat)
    requires Holds(live, s) && row.id !in live && i <= |s|
    ensures var more := live[row.id := LiveOf(row)];
      Holds(more, s[..i]) && Holds(more, s[i + 0..]) && Holds(more, [row])
  {
  }

  /** Placing the id and adding the entry completes an insert. */
  lemma InsertMirrors(order: seq<BlockId>, live: map<BlockId, LiveBlock>, f: Forest, op: Op)
    requires Distinct(f) && Mirrors(order, live, f) && op.InsertBlock? && StepInsert(f, op).Ok? && op.id !in live
    ensures (op.parent.Some? ==> op.parent.value in Ids(f)) && (op.after.Some? ==> op.after.value in Ids(f))
    ensures PlaceIndex(f, op.parent, op.after) <= |order|
    ensures Mirrors(Splice(order, PlaceIndex(f, op.parent, op.after), 0, [op.id]),
                    live[op.id := LiveOf(Block(op.id, op.parent, op.body))], StepInsert(f, op).value)
  {
    InsertedLeaf(f, op);
    LeafIsSplice(f, op.parent, op.after, op.id, op.body);
    InsertIds(f, op.parent, op.after, Node(op.id, op.body, Nil, Nil));
    PlaceInIds(f, op.parent, op.after);
    var s, row, idx := Flatten(f, None), Block(op.id, op.parent, op.body), PlaceIndex(f, op.parent, op.after);
    var more := live[op.id := LiveOf(row)];
    IdsOfSplice(s, idx, 0, [row]);
    assert IdsOf([row]) == [op.id];
    HoldsMore(live, s, row, idx);
    HoldsSplice(more, s, idx, 0, [row]);
    assert more.Keys == live.Keys + {op.id};
  }

  /** The moved page's rows: its subtree's run back in at the target, reparented. */
  lemma MovedPage(f: Forest, op: Op)
    requires Distinct(f) && op.MoveBlock? && StepMove(f, op).Ok? && MoveIndices(f, op)
    requires IndexOf(f, op.id) + Size(Subtree(f, op.id)) <= Size(f)
    ensures var s, i, n := Flatten(f, None), IndexOf(f, op.id), Size(Subtree(f, op.id));
      && n > 0
      && Flatten(StepMove(f, op).value, None) == SpliceReparented(s, i, n, TargetIndex(f, op), s[i].(parent := op.toParent))
  {
    MovedTree(f, op);
    PastedRun(f, op.id, op.toParent, op.to, TargetIndex(f, op));
  }

  lemma PastedRun(f: Forest, x: BlockId, q: Option<BlockId>, a: Option<BlockId>, j: nat)
    requires Distinct(f) && x in Ids(f) && Distinct(Remove(f, x)) && IsPlace(Remove(f, x), q, a)
    requires a.Some? ==> a.value in Ids(Remove(f, x))
    requires j == PlaceIndex(Remove(f, x), q, a) && j <= Size(f) - Size(Subtree(f, x))
    requires IndexOf(f, x) + Size(Subtree(f, x)) <= Size(f)
    ensures var s, i, n := Flatten(f, None), IndexOf(f, x), Size(Subtree(f, x));
      && n > 0
      && Flatten(Insert(Remove(f, x), q, a, Subtree(f, x)), None) == SpliceReparented(s, i, n, j, s[i].(parent := q))
  {
    var s, i, n := Flatten(f, None), IndexOf(f, x), Size(Subtree(f, x));
    var run := s[i..i + n];
    SubtreeIsRun(f, None, x);
    PasteSubtree(f, x, run, q, a);
    SpliceRun(s, i, n, j, q, run, Flatten(Remove(f, x), None));
  }

  lemma MoveKeepsIds(f: Forest, op: Op)
    requires Distinct(f) && op.MoveBlock? && StepMove(f, op).Ok?
    ensures Ids(StepMove(f, op).value) == Ids(f)
  {
    MovedTree(f, op);
    InsertIds(Remove(f, op.id), op.toParent, op.to, Subtree(f, op.id));
  }

  lemma SpliceRun(s: seq<Block>, i: nat, n: nat, j: nat, parent: Option<BlockId>, run: seq<Block>, cut: seq<Block>)
    requires 0 < n && i + n <= |s| && j <= |s| - n && run == s[i..i + n] && cut == Splice(s, i, n, [])
    ensures j <= |cut|
    ensures Splice(cut, j, 0, [run[0].(parent := parent)] + run[1..]) == SpliceReparented(s, i, n, j, s[i].(parent := parent))
  {
    assert run[0] == s[i];
  }

  /** Splicing the ids back in and reparenting the root completes the move. */
  lemma MoveMirrors(order: seq<BlockId>, live: map<BlockId, LiveBlock>, f: Forest, op: Op)
    requires Distinct(f) && Mirrors(order, live, f) && op.MoveBlock? && StepMove(f, op).Ok?
    requires MoveIndices(f, op) && IndexOf(f, op.id) + Size(Subtree(f, op.id)) <= |order| == Size(f)
    ensures Mirrors(SpliceMoved(order, IndexOf(f, op.id), Size(Subtree(f, op.id)), TargetIndex(f, op)),
                    live[op.id := live[op.id].(parent := op.toParent)], StepMove(f, op).value)
  {
    var x, s, i, n := op.id, Flatten(f, None), IndexOf(f, op.id), Size(Subtree(f, op.id));
    MovedPage(f, op);
    MoveKeepsIds(f, op);
    Located(f, None, x);
    var row, moved := s[i].(parent := op.toParent), live[x := live[x].(parent := op.toParent)];
    OtherRows(f, x, live, moved);
    MovedRows(s, moved, i, n, TargetIndex(f, op), row);
  }
}
