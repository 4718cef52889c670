// The page itself: one flat slice of rows, edited in place by index arithmetic
// and proved against the forest it flattens.

module Pages {
  import opened Options
  import opened Blocks
  import opened Forests
  import opened ForestAlgebra
  import opened Operations
  import opened Positions
  import opened RowLaws

  // ----- Walks over the slice

  method FindBlock(blocks: seq<Block>, id: BlockId) returns (i: int, ok: bool)
    ensures ok ==> 0 <= i < |blocks| && blocks[i].id == id
    ensures !ok ==> i == -1
    ensures ok <==> exists k :: 0 <= k < |blocks| && blocks[k].id == id
  {
    i := 0;
    while i < |blocks|
      invariant 0 <= i <= |blocks|
      invariant forall k :: 0 <= k < i ==> blocks[k].id != id
    {
      if blocks[i].id == id {
        return i, true;
      }
      i := i + 1;
    }
    return -1, false;
  }

  /** `byId` sends exactly the ids of `blocks` to a row holding them. */
  ghost predicate Indexes(byId: map<BlockId, nat>, blocks: seq<Block>) {
    && (forall id :: id in byId ==> byId[id] < |blocks| && blocks[byId[id]].id == id)
    && (forall k :: 0 <= k < |blocks| ==> blocks[k].id in byId)
  }

  method BlockIndex(blocks: seq<Block>) returns (byId: map<BlockId, nat>)
    ensures Indexes(byId, blocks)
  {
    byId := map[];
    var i := 0;
    while i < |blocks|
      invariant 0 <= i <= |blocks|
      invariant Indexes(byId, blocks[..i])
    {
      byId := byId[blocks[i].id := i];
      i := i + 1;
    }
    assert blocks[..i] == blocks;
  }

  /** An index over a flattened forest is the forest's own index. */
  lemma IndexesForest(byId: map<BlockId, nat>, blocks: seq<Block>, f: Forest, x: BlockId)
    requires Reads(blocks, f) && Indexes(byId, blocks)
    ensures x in byId <==> x in Ids(f)
    ensures x in byId ==> byId[x] == IndexOf(f, x) && blocks[byId[x]] == Block(x, ParentOf(f, None, x), BodyOf(f, x))
  {
    if x in byId {
      RowAt(blocks, f, byId[x]);
    }
    if x in Ids(f) {
      Located(f, None, x);
    }
  }

  /** The backward scan for a row with the same parent finds the previous sibling. */
  method PredecessorOf(blocks: seq<Block>, i: nat, ghost f: Forest) returns (prev: Option<BlockId>)
    requires Reads(blocks, f) && i < |blocks|
    ensures blocks[i].id in Ids(f) && prev == PrevOf(f, blocks[i].id)
  {
    ghost var x := blocks[i].id;
    RowAt(blocks, f, i);
    PrevIsNearest(f, None, x);
    if PrevOf(f, x).Some? {
      Located(f, None, PrevOf(f, x).value);
    }
    var j := i - 1;
    while j >= 0
      invariant -1 <= j < i
      invariant forall k :: j < k < i ==> blocks[k].parent != blocks[i].parent
    {
      if blocks[j].parent == blocks[i].parent {
        RowAt(blocks, f, j);
        return Some(blocks[j].id);
      }
      j := j - 1;
    }
    return None;
  }

  /** The parent chain from `id` meets `ancestor` exactly when `id` is below it. It
      ends because every parent's row is earlier. */
  method IsDescendant(blocks: seq<Block>, byId: map<BlockId, nat>, id: BlockId, ancestor: BlockId, ghost f: Forest)
    returns (below: bool)
    requires Reads(blocks, f) && Indexes(byId, blocks)
    ensures below <==> ancestor in Ids(f) && id in Below(f, ancestor)
  {
    var cur := id;
    if ancestor in Ids(f) {
      SubtreeIds(f, ancestor);
    }
    while true
      invariant ancestor in Ids(f) ==> (id in Below(f, ancestor) <==> cur in Below(f, ancestor))
      decreases if cur in Ids(f) then 1 + IndexOf(f, cur) else 0
    {
      IndexesForest(byId, blocks, f, cur);
      if cur !in byId {
        return false;
      }
      if ancestor in Ids(f) {
        ParentLinksClosed(f, None, ancestor, cur);
      }
      RootsHaveNoParent(f, None, cur);
      ParentIsEarlier(f, None, cur);
      var parent := blocks[byId[cur]].parent;
      if parent == None {
        return false;
      }
      if parent.value == ancestor {
        return true;
      }
      cur := parent.value;
    }
  }

  /** The forward scan over descendants stops one past the subtree's run. */
  method SubtreeEnd(blocks: seq<Block>, byId: map<BlockId, nat>, i: nat, ghost f: Forest) returns (j: nat)
    requires Reads(blocks, f) && Indexes(byId, blocks) && i < |blocks|
    ensures blocks[i].id in Ids(f) && j == i + Size(Subtree(f, blocks[i].id)) <= |blocks|
  {
    var id := blocks[i].id;
    RowAt(blocks, f, i);
    SubtreeIsRun(f, None, id);
    ghost var end := i + Size(Subtree(f, id));
    assert end > i;
    j := i + 1;
    while j < |blocks|
      invariant i < j <= end
    {
      RowAt(blocks, f, j);
      SubtreePositions(f, id, blocks[j].id);
      var below := IsDescendant(blocks, byId, blocks[j].id, id, f);
      if !below {
        break;
      }
      j := j + 1;
    }
  }

  method ValidateParent(blocks: seq<Block>, byId: map<BlockId, nat>, parent: Option<BlockId>, child: BlockTag, ghost f: Forest)
    returns (err: Option<Error>)
    requires Reads(blocks, f) && Indexes(byId, blocks)
    ensures err == ParentError(f, parent, child)
  {
    if parent == None {
      return None;
    }
    IndexesForest(byId, blocks, f, parent.value);
    if parent.value !in byId {
      return Some(BlockNotFound(parent.value));
    }
    var tag := blocks[byId[parent.value]].body.kind.tag;
    if !tag.IsContainer() {
      return Some(NotAContainer(parent.value));
    }
    if tag == ListItem && child != List && child != Paragraph {
      return Some(InvalidListChild(parent.value, child));
    }
    return None;
  }

  /** Resolves (parent, after) to the index of that place, or says why it names none. */
  method InsertIndexAfterInParent(blocks: seq<Block>, byId: map<BlockId, nat>, parent: Option<BlockId>, after: Option<BlockId>, ghost f: Forest)
    returns (idx: nat, err: Option<Error>)
    requires Reads(blocks, f) && Indexes(byId, blocks)
    ensures err == PlaceError(f, parent, after)
    ensures err == None ==>
              && (parent.Some? && after == None ==> parent.value in Ids(f))
              && (after.Some? ==> after.value in Ids(f))
              && idx == (if after.Some? then IndexOf(f, after.value) + Size(Subtree(f, after.value))
                         else if parent.Some? then IndexOf(f, parent.value) + 1 else 0)
  {
    if after == None {
      if parent == None {
        return 0, None;
      }
      IndexesForest(byId, blocks, f, parent.value);
      if parent.value !in byId {
        return 0, Some(BlockNotFound(parent.value));
      }
      return byId[parent.value] + 1, None;
    }
    IndexesForest(byId, blocks, f, after.value);
    if after.value !in byId {
      return 0, Some(BlockNotFound(after.value));
    }
    var i := byId[after.value];
    if blocks[i].parent != parent {
      return 0, Some(ParentMismatch(after.value, parent, blocks[i].parent));
    }
    idx := SubtreeEnd(blocks, byId, i, f);
    return idx, None;
  }

  // ----- The page

  /** A move whose own checks pass but whose target (toParent, to) names no
      position once the subtree is out: the one rejection that comes after the
      slice was already cut. */
  predicate CutsThenRejects(f: Forest, op: Op) {
    op.MoveBlock? && MoveError(f, op) == None && PlaceError(Remove(f, op.id), op.toParent, op.to).Some?
  }

  /** What such a move leaves: the subtree gone, zero rows at the end in its place. */
  function CutSlice(f: Forest, op: Op): seq<Block>
    requires op.MoveBlock? && op.id in Ids(f)
  {
    Flatten(Remove(f, op.id), None) + seq(Size(Subtree(f, op.id)), _ => ZERO_BLOCK)
  }

  /** The slice after a rejected op: as it was, but for a move that cuts first. */
  ghost predicate LeftByRejected(f: Forest, op: Op, before: seq<Block>, now: seq<Block>) {
    if CutsThenRejects(f, op) then op.id in Ids(f) && now == CutSlice(f, op) else now == before
  }

  class Page {
    const id: PageId
    var title: string
    var blocks: seq<Block>
    ghost var forest: Forest

    /** The slice is the depth-first flattening of a well-formed forest. */
    ghost predicate Valid()
      reads this
    {
      WellFormed(forest) && blocks == Flatten(forest, None)
    }

    ghost function Abstract(): State
      reads this
    {
      State(id, title, forest)
    }

    constructor (id: PageId, title: string)
      ensures Valid() && Abstract() == State(id, title, Nil) && blocks == []
    {
      this.id := id;
      this.title := title;
      blocks := [];
      forest := Nil;
    }

    /** Apply answers and changes the page exactly as `Step` does on the forest, and as
        its rows say; every rejection but a cut one leaves the page as it was. */
    method Apply(op: Op) returns (err: Option<Error>)
      requires Valid()
      modifies this
      ensures match old(Step(Abstract(), op))
              case Ok(after) => err == None && Valid() && Abstract() == after
              case Err(e) => err == Some(e) && title == old(title) && forest == old(forest)
      ensures err.Some? ==> LeftByRejected(old(forest), op, old(blocks), blocks)
      ensures old(CutsThenRejects(forest, op)) ==> err.Some?
      ensures Answers(id, old(title), old(blocks), op, err, title, blocks)
    {
      ghost var s, rows := Abstract(), blocks;
      err := Dispatch(op);
      AnsweredOnRows(s, rows, op, err, title, blocks);
    }

    static lemma AnsweredOnRows(s: State, rows: seq<Block>, op: Op, err: Option<Error>, titleAfter: string, after: seq<Block>)
      requires WellFormed(s.forest) && rows == Flatten(s.forest, None)
      requires match Step(s, op)
               case Ok(t) => err == None && titleAfter == t.title && after == Flatten(t.forest, None)
               case Err(e) => err == Some(e) && titleAfter == s.title && LeftByRejected(s.forest, op, rows, after)
      ensures Answers(s.page, s.title, rows, op, err, titleAfter, after)
    {
      if err == None {
        AcceptedAnswers(s, op);
      } else {
        if CutsThenRejects(s.forest, op) {
          CutLeaves(rows, s.forest, op);
        } else {
          RefusedLeaves(rows, s.forest, op);
        }
        RefusedAnswers(s, op, after);
      }
    }

    method Dispatch(op: Op) returns (err: Option<Error>)
      requires Valid()
      modifies this
      ensures match old(Step(Abstract(), op))
              case Ok(after) => err == None && Valid() && Abstract() == after
              case Err(e) => err == Some(e) && title == old(title) && forest == old(forest)
      ensures err.Some? ==> LeftByRejected(old(forest), op, old(blocks), blocks)
      ensures old(CutsThenRejects(forest, op)) ==> err.Some?
    {
      StepFrames(op);
      match op
      case InsertBlock(_, _, _, _) => err := ApplyInsert(op);
      case DeleteBlock(_, _) => err := ApplyDelete(op);
      case SetBlockKind(_, _, _) => err := ApplyKind(op);
      case SetBlockContent(_, _, _) => err := ApplyContent(op);
      case MoveBlock(_, _, _, _, _) => err := ApplyMove(op);
      case SetTitle(_, fromTitle, toTitle) =>
        if title != fromTitle {
          return Some(PreconditionFailed(id, "title"));
        }
        title := toTitle;
        err := None;
    }

    lemma StepFrames(op: Op)
      requires Valid()
      ensures Step(Abstract(), op).Ok? ==> WellFormed(Step(Abstract(), op).value.forest)
    {
      if Step(Abstract(), op).Ok? {
        StepKeepsWellFormed(Abstract(), op);
      }
    }

    method ApplyInsert(op: Op) returns (err: Option<Error>)
      requires Valid() && op.InsertBlock?
      modifies this`blocks, this`forest
      ensures match old(StepInsert(forest, op))
              case Ok(g) => err == None && forest == g && blocks == Flatten(forest, None)
              case Err(e) => err == Some(e) && unchanged(this)
    {
      var _, exists_ := FindBlock(blocks, op.id);
      HasRow(op.id);
      if exists_ {
        return Some(DuplicateBlockId(op.id));
      }
      var byId := BlockIndex(blocks);
      err := ValidateParent(blocks, byId, op.parent, op.body.kind.tag, forest);
      if err.Some? {
        return;
      }
      var idx;
      idx, err := InsertIndexAfterInParent(blocks, byId, op.parent, op.after, forest);
      if err.Some? {
        return;
      }
      InsertedAt(op, idx, forest);
      blocks := Splice(blocks, idx, 0, [Block(op.id, op.parent, op.body)]);
      forest := Insert(forest, op.parent, op.after, Node(op.id, op.body, Nil, Nil));
    }

    method ApplyDelete(op: Op) returns (err: Option<Error>)
      requires Valid() && op.DeleteBlock?
      modifies this`blocks, this`forest
      ensures match old(StepDelete(forest, op))
              case Ok(g) => err == None && forest == g && blocks == Flatten(forest, None)
              case Err(e) => err == Some(e) && unchanged(this)
    {
      var x := op.tombstone.id;
      var i, ok := FindBlock(blocks, x);
      HasRow(x);
      if !ok {
        return Some(BlockNotFound(x));
      }
      RowAt(blocks, forest, i);
      if blocks[i].parent != op.tombstone.parent {
        return Some(ParentMismatch(x, op.tombstone.parent, blocks[i].parent));
      }
      var got := PredecessorOf(blocks, i, forest);
      if got != op.after {
        return Some(PositionMismatch(x, op.after, got));
      }
      var byId := BlockIndex(blocks);
      var end := SubtreeEnd(blocks, byId, i, forest);
      OnlyRootWhenSizeOne(x);
      if end != i + 1 {
        return Some(ContainerNotEmpty(x));
      }
      SubtreeIsRun(forest, None, x);
      blocks := Splice(blocks, i, 1, []);
      forest := Remove(forest, x);
      return None;
    }

    method ApplyKind(op: Op) returns (err: Option<Error>)
      requires Valid() && op.SetBlockKind?
      modifies this`blocks, this`forest
      ensures match old(StepKind(forest, op))
              case Ok(g) => err == None && forest == g && blocks == Flatten(forest, None)
              case Err(e) => err == Some(e) && unchanged(this)
    {
      var i, ok := FindBlock(blocks, op.id);
      HasRow(op.id);
      if !ok {
        return Some(BlockNotFound(op.id));
      }
      RowAt(blocks, forest, i);
      if blocks[i].body.kind != op.fromKind {
        return Some(PreconditionFailed(op.id, "kind"));
      }
      OnlyRootWhenSizeOne(op.id);
      if op.fromKind.tag.IsContainer() && !op.toKind.tag.IsContainer() {
        var byId := BlockIndex(blocks);
        var end := SubtreeEnd(blocks, byId, i, forest);
        if end != i + 1 {
          return Some(ContainerNotEmpty(op.id));
        }
      }
      var parent := blocks[i].parent;
      if parent.Some? {
        var j, found := FindBlock(blocks, parent.value);
        HasRow(parent.value);
        if found {
          RowAt(blocks, forest, j);
        }
        if found && blocks[j].body.kind.tag == ListItem && op.toKind.tag != List && op.toKind.tag != Paragraph {
          return Some(InvalidListChild(parent.value, op.toKind.tag));
        }
      }
      OverwriteBody(i, blocks[i].body.(kind := op.toKind));
      return None;
    }

    method ApplyContent(op: Op) returns (err: Option<Error>)
      requires Valid() && op.SetBlockContent?
      modifies this`blocks, this`forest
      ensures match old(StepContent(forest, op))
              case Ok(g) => err == None && forest == g && blocks == Flatten(forest, None)
              case Err(e) => err == Some(e) && unchanged(this)
    {
      var i, ok := FindBlock(blocks, op.id);
      HasRow(op.id);
      if !ok {
        return Some(BlockNotFound(op.id));
      }
      RowAt(blocks, forest, i);
      if blocks[i].body.content != op.prev {
        return Some(PreconditionFailed(op.id, "content"));
      }
      OverwriteBody(i, blocks[i].body.(content := op.content));
      return None;
    }

    method OverwriteBody(i: nat, body: Body)
      requires Valid() && i < |blocks|
      modifies this`blocks, this`forest
      ensures forest == Relabel(old(forest), old(blocks)[i].id, body)
      ensures blocks == Flatten(forest, None)
    {
      RowAt(blocks, forest, i);
      RelabelFlattens(forest, None, blocks[i].id, body);
      forest := Relabel(forest, blocks[i].id, body);
      blocks := blocks[i := blocks[i].(body := body)];
      assert blocks == Splice(old(blocks), i, 1, [blocks[i]]);
    }

    method ApplyMove(op: Op) returns (err: Option<Error>)
      requires Valid() && op.MoveBlock?
      modifies this`blocks, this`forest
      ensures match old(StepMove(forest, op))
              case Ok(g) => err == None && forest == g && blocks == Flatten(forest, None)
              case Err(e) => err == Some(e) && forest == old(forest)
      ensures err.Some? && !old(CutsThenRejects(forest, op)) ==> unchanged(this)
      ensures old(CutsThenRejects(forest, op)) ==> op.id in old(Ids(forest)) && blocks == old(CutSlice(forest, op))
    {
      var x := op.id;
      var i, ok := FindBlock(blocks, x);
      HasRow(x);
      if !ok {
        return Some(BlockNotFound(x));
      }
      RowAt(blocks, forest, i);
      if blocks[i].parent != op.fromParent {
        return Some(ParentMismatch(x, op.fromParent, blocks[i].parent));
      }
      var got := PredecessorOf(blocks, i, forest);
      if got != op.from {
        return Some(PositionMismatch(x, op.from, got));
      }
      var byId := BlockIndex(blocks);
      if op.toParent.Some? {
        var below := IsDescendant(blocks, byId, op.toParent.value, x, forest);
        SubtreeIds(forest, x);
        if op.toParent.value == x || below {
          return Some(WouldCycle(x, op.toParent.value));
        }
      }
      err := ValidateParent(blocks, byId, op.toParent, blocks[i].body.kind.tag, forest);
      if err.Some? {
        return;
      }
      err := CutAndInsert(op, i, byId);
    }

    /** The part of a move that edits the slice. */
    method CutAndInsert(op: Op, i: nat, byId: map<BlockId, nat>) returns (err: Option<Error>)
      requires Valid() && op.MoveBlock? && MoveError(forest, op) == None
      requires i < |blocks| && blocks[i].id == op.id && Indexes(byId, blocks)
      modifies this`blocks, this`forest
      ensures err == old(PlaceError(Remove(forest, op.id), op.toParent, op.to))
      ensures err == None ==> forest == old(Insert(Remove(forest, op.id), op.toParent, op.to, Subtree(forest, op.id)))
      ensures err == None ==> blocks == Flatten(forest, None)
      ensures err.Some? ==> forest == old(forest) && blocks == old(CutSlice(forest, op))
    {
      var end := SubtreeEnd(blocks, byId, i, forest);
      var n := end - i;
      CutOutAt(blocks, forest, op.id, i, end, n);
      var subtree := blocks[i..end];
      var without := Splice(blocks, i, n, []);
      // The delete shifts the slice's own rows down and zeroes the tail.
      blocks := without + seq(n, _ => ZERO_BLOCK);
      var pasted;
      pasted, err := Paste(op, without, subtree, forest);
      if err == None {
        blocks := pasted;
        forest := Insert(Remove(forest, op.id), op.toParent, op.to, Subtree(forest, op.id));
      }
    }

    static lemma CutOutAt(rows: seq<Block>, f: Forest, x: BlockId, i: nat, end: nat, n: nat)
      requires Reads(rows, f) && i < |rows| && rows[i].id == x && x in Ids(f) && n == Size(Subtree(f, x)) && end == i + n <= |rows|
      ensures Reads(Splice(rows, i, n, []), Remove(f, x))
      ensures rows[i..end] == Flatten(Subtree(f, x), ParentOf(f, None, x)) && rows[i..end] != []
    {
      RowAt(rows, f, i);
      SubtreeIsRun(f, None, x);
      RemoveIds(f, x);
    }

    /** Resolves the target among the remaining rows and splices the subtree in. */
    static method Paste(op: Op, without: seq<Block>, subtree: seq<Block>, ghost f: Forest)
      returns (pasted: seq<Block>, err: Option<Error>)
      requires WellFormed(f) && op.MoveBlock? && MoveError(f, op) == None && op.id in Ids(f)
      requires Reads(without, Remove(f, op.id)) && subtree == Flatten(Subtree(f, op.id), ParentOf(f, None, op.id))
      requires subtree != []
      ensures err == PlaceError(Remove(f, op.id), op.toParent, op.to)
      ensures err == None ==> pasted == Flatten(Insert(Remove(f, op.id), op.toParent, op.to, Subtree(f, op.id)), None)
    {
      pasted := without;
      var byId := BlockIndex(without);
      var idx;
      idx, err := InsertIndexAfterInParent(without, byId, op.toParent, op.to, Remove(f, op.id));
      if err == None {
        ghost var at := PastedAt(op, subtree, f);
        assert idx == at;
        pasted := Splice(without, idx, 0, [subtree[0].(parent := op.toParent)] + subtree[1..]);
      }
    }

    static lemma InsertedAt(op: Op, idx: nat, f: Forest)
      requires Distinct(f) && op.InsertBlock? && StepInsert(f, op).Ok?
      requires (op.after.Some? ==> op.after.value in Ids(f)) && (op.parent.Some? ==> op.parent.value in Ids(f))
      requires idx == PlaceIndex(f, op.parent, op.after)
      ensures idx <= Size(f)
      ensures Splice(Flatten(f, None), idx, 0, [Block(op.id, op.parent, op.body)])
           == Flatten(Insert(f, op.parent, op.after, Node(op.id, op.body, Nil, Nil)), None)
    {
      InsertedLeaf(f, op);
      LeafIsSplice(f, op.parent, op.after, op.id, op.body);
    }

    static lemma PastedAt(op: Op, subtree: seq<Block>, f: Forest) returns (at: nat)
      requires WellFormed(f) && op.MoveBlock? && StepMove(f, op).Ok? && op.id in Ids(f) && subtree != []
      requires Distinct(Remove(f, op.id)) && subtree == Flatten(Subtree(f, op.id), ParentOf(f, None, op.id))
      ensures var g := Remove(f, op.id);
        && (op.to.Some? ==> op.to.value in Ids(g)) && (op.toParent.Some? ==> op.toParent.value in Ids(g))
        && at == PlaceIndex(g, op.toParent, op.to) <= Size(g)
        && Splice(Flatten(g, None), at, 0, [subtree[0].(parent := op.toParent)] + subtree[1..])
           == Flatten(Insert(g, op.toParent, op.to, Subtree(f, op.id)), None)
    {
      TargetIsPlace(op, f);
      PasteSubtree(f, op.id, subtree, op.toParent, op.to);
      at := PlaceIndex(Remove(f, op.id), op.toParent, op.to);
    }

    static lemma TargetIsPlace(op: Op, f: Forest)
      requires WellFormed(f) && op.MoveBlock? && StepMove(f, op).Ok?
      ensures IsPlace(Remove(f, op.id), op.toParent, op.to)
    {
      MovedTree(f, op);
    }

    lemma HasRow(x: BlockId)
      requires Valid()
      ensures x in Ids(forest) <==> exists k :: 0 <= k < |blocks| && blocks[k].id == x
    {
      if x in Ids(forest) {
        Located(forest, None, x);
        assert blocks[IndexOf(forest, x)].id == x;
      }
      if k :| 0 <= k < |blocks| && blocks[k].id == x {
        RowAt(blocks, forest, k);
      }
    }

    lemma OnlyRootWhenSizeOne(x: BlockId)
      requires x in Ids(forest)
      ensures Size(Subtree(forest, x)) == 1 <==> Subtree(forest, x).kids == Nil
    {
      var t := Subtree(forest, x);
      assert Size(t) == 1 + Size(t.kids) + Size(Nil);
      assert t.kids.Node? ==> Size(t.kids) >= 1;
    }
  }
}
