// Accepted ops on rows.

module RowLaws {
  // What each op asks of a page's rows, what it leaves, and why it is refused,
  // in terms of the rows alone; `Step` does exactly that.

  import opened Options
  import opened Blocks
  import opened Forests
  import opened ForestAlgebra
  import opened Operations
  import opened Positions

  type Rows = seq<Block>

  // ----- Rows

  ghost predicate Has(rows: Rows, x: BlockId) {
    exists i :: 0 <= i < |rows| && rows[i].id == x
  }

  ghost predicate Childless(rows: Rows, x: BlockId) {
    forall k :: 0 <= k < |rows| ==> rows[k].parent != Some(x)
  }

  /** The nearest row before row `i` with the same parent is `prev`, or there is none. */
  ghost predicate Follows(rows: Rows, i: nat, prev: Option<BlockId>)
    requires i < |rows|
  {
    match prev
    case None => forall k :: 0 <= k < i ==> rows[k].parent != rows[i].parent
    case Some(a) =>
      exists j :: 0 <= j < i && rows[j].id == a && rows[j].parent == rows[i].parent
                  && forall k :: j < k < i ==> rows[k].parent != rows[i].parent
  }

  /** The parent of row `k` is one of the rows from `i` on. */
  ghost predicate Within(rows: Rows, i: nat, k: nat)
    requires k < |rows|
  {
    exists j :: i <= j < k && rows[k].parent == Some(rows[j].id)
  }

  /** Row `i` and everything below it are the rows up to `e`. */
  ghost predicate RunTo(rows: Rows, i: nat, e: nat) {
    && i < e <= |rows| && (forall k :: i < k < e ==> Within(rows, i, k))
    && (e < |rows| ==> !Within(rows, i, e))
  }

  predicate HoldsChildren(tag: BlockTag) {
    tag == Quote || tag == Toggle || tag == List || tag == ListItem || tag == Callout || tag == Aside
  }

  /** A list item takes only lists and paragraphs. */
  predicate Takes(parent: BlockTag, child: BlockTag) {
    parent != ListItem || child == List || child == Paragraph
  }

  /** A block of this tag may stand under `parent`. */
  ghost predicate MayHold(rows: Rows, parent: Option<BlockId>, child: BlockTag) {
    parent.Some? ==>
      exists j :: 0 <= j < |rows| && rows[j].id == parent.value
                  && HoldsChildren(rows[j].body.kind.tag) && Takes(rows[j].body.kind.tag, child)
  }

  /** The place under `parent` and behind all of `after` is at index `at`. */
  ghost predicate PlaceAt(rows: Rows, parent: Option<BlockId>, after: Option<BlockId>, at: nat) {
    match after
    case None => if parent == None then at == 0 else 0 < at <= |rows| && rows[at - 1].id == parent.value
    case Some(a) => exists j :: 0 <= j < |rows| && rows[j].id == a && rows[j].parent == parent && RunTo(rows, j, at)
  }

  // ----- What each op asks and does

  ghost predicate Inserts(rows: Rows, op: Op, after: Rows)
    requires op.InsertBlock?
  {
    && !Has(rows, op.id) && MayHold(rows, op.parent, op.body.kind.tag)
    && exists at: nat :: at <= |rows| && PlaceAt(rows, op.parent, op.after, at)
                         && after == rows[..at] + [Block(op.id, op.parent, op.body)] + rows[at..]
  }

  /** Row `i` is the recorded child of `parent` right after `prev`. */
  ghost predicate Recorded(rows: Rows, i: nat, x: BlockId, parent: Option<BlockId>, prev: Option<BlockId>) {
    i < |rows| && rows[i].id == x && rows[i].parent == parent && Follows(rows, i, prev)
  }

  ghost predicate Deletes(rows: Rows, op: Op, after: Rows)
    requires op.DeleteBlock?
  {
    exists i: nat ::
      && Recorded(rows, i, op.tombstone.id, op.tombstone.parent, op.after)
      && Childless(rows, op.tombstone.id) && after == rows[..i] + rows[i + 1..]
  }

  /** The parent of row `i`, if it is a list item, takes this tag. */
  ghost predicate ParentTakes(rows: Rows, i: nat, tag: BlockTag)
    requires i < |rows|
  {
    forall j :: 0 <= j < |rows| && rows[i].parent == Some(rows[j].id) ==> Takes(rows[j].body.kind.tag, tag)
  }

  ghost predicate SetsKind(rows: Rows, op: Op, after: Rows)
    requires op.SetBlockKind?
  {
    exists i: nat ::
      && i < |rows| && rows[i].id == op.id && rows[i].body.kind == op.fromKind
      && (HoldsChildren(op.fromKind.tag) && !HoldsChildren(op.toKind.tag) ==> Childless(rows, op.id))
      && ParentTakes(rows, i, op.toKind.tag)
      && after == rows[i := Block(op.id, rows[i].parent, Body(op.toKind, rows[i].body.content))]
  }

  ghost predicate SetsContent(rows: Rows, op: Op, after: Rows)
    requires op.SetBlockContent?
  {
    exists i: nat ::
      && i < |rows| && rows[i].id == op.id && rows[i].body.content == op.prev
      && after == rows[i := Block(op.id, rows[i].parent, Body(rows[i].body.kind, op.content))]
  }

  /** The rows with those from `i` to `e` taken out. */
  function Others(rows: Rows, i: nat, e: nat): Rows
    requires i <= e <= |rows|
  {
    rows[..i] + rows[e..]
  }

  /** Moving the run from `i` to `e` behind the first `at` of the other rows. */
  function Moved(rows: Rows, i: nat, e: nat, at: nat, q: Option<BlockId>): Rows
    requires i < e <= |rows| && at <= |rows| - (e - i)
  {
    var rest := Others(rows, i, e);
    rest[..at] + [rows[i].(parent := q)] + rows[i + 1..e] + rest[at..]
  }

  /** The run from `i` to `e` may be moved under `q`: `q` is none of its rows, and takes it. */
  ghost predicate Movable(rows: Rows, i: nat, e: nat, q: Option<BlockId>) {
    && RunTo(rows, i, e) && MayHold(rows, q, rows[i].body.kind.tag)
    && forall k :: i <= k < e ==> q != Some(rows[k].id)
  }

  /** The run from `i` to `e` is the one `op` moves, recorded where it stands and free to leave. */
  ghost predicate MayMove(rows: Rows, i: nat, e: nat, op: Op)
    requires op.MoveBlock?
  {
    Recorded(rows, i, op.id, op.fromParent, op.from) && Movable(rows, i, e, op.toParent)
  }

  /** The run from `i` to `e` goes to the place under `q` behind `a` among the other rows. */
  ghost predicate Lands(rows: Rows, i: nat, e: nat, q: Option<BlockId>, a: Option<BlockId>, after: Rows) {
    && i < e <= |rows|
    && exists at: nat :: at <= |rows| - (e - i) && PlaceAt(Others(rows, i, e), q, a, at) && after == Moved(rows, i, e, at, q)
  }

  ghost predicate Moves(rows: Rows, op: Op, after: Rows)
    requires op.MoveBlock?
  {
    exists i: nat, e: nat :: MayMove(rows, i, e, op) && Lands(rows, i, e, op.toParent, op.to, after)
  }

  /** `op` takes a page with this title and these rows to that title and those rows. */
  ghost predicate Changes(title: string, rows: Rows, op: Op, titleAfter: string, after: Rows) {
    if op.SetTitle? then title == op.fromTitle && titleAfter == op.toTitle && after == rows
    else
      && titleAfter == title
      && match op
        case InsertBlock(_, _, _, _) => Inserts(rows, op, after)
        case DeleteBlock(_, _) => Deletes(rows, op, after)
        case SetBlockKind(_, _, _) => SetsKind(rows, op, after)
        case SetBlockContent(_, _, _) => SetsContent(rows, op, after)
        case MoveBlock(_, _, _, _, _) => Moves(rows, op, after)
  }

  // ----- Why an op is refused, in the order of the checks

  ghost predicate RefusedParent(rows: Rows, parent: BlockId, child: BlockTag, e: Error) {
    if !Has(rows, parent) then e == BlockNotFound(parent)
    else exists j :: 0 <= j < |rows| && rows[j].id == parent
                     && e == if HoldsChildren(rows[j].body.kind.tag) then InvalidListChild(parent, child) else NotAContainer(parent)
  }

  ghost predicate RefusedPlace(rows: Rows, parent: Option<BlockId>, after: Option<BlockId>, e: Error) {
    match after
    case None => parent.Some? && e == BlockNotFound(parent.value)
    case Some(a) =>
      if !Has(rows, a) then e == BlockNotFound(a)
      else exists j :: 0 <= j < |rows| && rows[j].id == a && rows[j].parent != parent && e == ParentMismatch(a, parent, rows[j].parent)
  }

  ghost predicate RefusedRecord(rows: Rows, x: BlockId, parent: Option<BlockId>, prev: Option<BlockId>, e: Error) {
    exists i :: 0 <= i < |rows| && rows[i].id == x
      && if rows[i].parent != parent then e == ParentMismatch(x, parent, rows[i].parent)
         else e.PositionMismatch? && e.got != prev && Follows(rows, i, e.got) && e == PositionMismatch(x, prev, e.got)
  }

  ghost predicate IsRecorded(rows: Rows, x: BlockId, parent: Option<BlockId>, prev: Option<BlockId>) {
    exists i: nat :: Recorded(rows, i, x, parent, prev)
  }

  ghost predicate RefusedKind(rows: Rows, i: nat, op: Op, e: Error)
    requires op.SetBlockKind? && i < |rows|
  {
    if rows[i].body.kind != op.fromKind then e == PreconditionFailed(op.id, "kind")
    else if HoldsChildren(op.fromKind.tag) && !HoldsChildren(op.toKind.tag) && !Childless(rows, op.id) then
      e == ContainerNotEmpty(op.id)
    else rows[i].parent.Some? && e == InvalidListChild(rows[i].parent.value, op.toKind.tag)
  }

  ghost predicate RefusedMove(rows: Rows, i: nat, end: nat, op: Op, e: Error)
    requires op.MoveBlock? && i < end <= |rows|
  {
    var q := op.toParent;
    if exists k :: i <= k < end && q == Some(rows[k].id) then e == WouldCycle(op.id, q.value)
    else if !MayHold(rows, q, rows[i].body.kind.tag) then q.Some? && RefusedParent(rows, q.value, rows[i].body.kind.tag, e)
    else RefusedPlace(Others(rows, i, end), q, op.to, e)
  }

  /** `e` is why a page with this title and these rows refuses `op`: the first check that fails. */
  ghost predicate Refuses(page: PageId, rows: Rows, op: Op, e: Error) {
    match op
    case SetTitle(_, _, _) => e == PreconditionFailed(page, "title")
    case InsertBlock(x, parent, place, body) =>
      if Has(rows, x) then e == DuplicateBlockId(x)
      else if !MayHold(rows, parent, body.kind.tag) then parent.Some? && RefusedParent(rows, parent.value, body.kind.tag, e)
      else RefusedPlace(rows, parent, place, e)
    case DeleteBlock(tombstone, prev) =>
      if !Has(rows, tombstone.id) then e == BlockNotFound(tombstone.id)
      else if !IsRecorded(rows, tombstone.id, tombstone.parent, prev) then RefusedRecord(rows, tombstone.id, tombstone.parent, prev, e)
      else !Childless(rows, tombstone.id) && e == ContainerNotEmpty(tombstone.id)
    case SetBlockKind(x, _, _) =>
      if !Has(rows, x) then e == BlockNotFound(x)
      else exists i: nat :: i < |rows| && rows[i].id == x && RefusedKind(rows, i, op, e)
    case SetBlockContent(x, _, _) =>
      e == if Has(rows, x) then PreconditionFailed(x, "content") else BlockNotFound(x)
    case MoveBlock(x, parent, prev, _, _) =>
      if !Has(rows, x) then e == BlockNotFound(x)
      else if !IsRecorded(rows, x, parent, prev) then RefusedRecord(rows, x, parent, prev, e)
      else exists i: nat, end: nat :: Recorded(rows, i, x, parent, prev) && RunTo(rows, i, end) && RefusedMove(rows, i, end, op, e)
  }

  /** What a refused op leaves: the rows as they were, but for a move that may leave its
      place and has none to go to, whose run is cut and made up for by zero rows. */
  ghost predicate LeavesRows(rows: Rows, op: Op, now: Rows) {
    if op.MoveBlock? && exists i: nat, e: nat :: MayMove(rows, i, e, op) then
      exists i: nat, e: nat :: MayMove(rows, i, e, op) && now == Others(rows, i, e) + seq(e - i, _ => ZERO_BLOCK)
    else now == rows
  }

  /** The answer to `op` and what it leaves: accepted exactly when it takes the page somewhere. */
  ghost predicate Answers(page: PageId, title: string, rows: Rows, op: Op, err: Option<Error>, titleAfter: string, after: Rows) {
    match err
    case None => Changes(title, rows, op, titleAfter, after)
    case Some(e) =>
      && (forall t, r :: !Changes(title, rows, op, t, r))
      && Refuses(page, rows, op, e) && titleAfter == title && LeavesRows(rows, op, after)
  }

  // ----- Rows of a forest

  lemma HasExactly(rows: Rows, f: Forest, x: BlockId)
    requires Reads(rows, f)
    ensures Has(rows, x) <==> x in Ids(f)
  {
    if x in Ids(f) {
      Located(f, None, x);
      assert rows[IndexOf(f, x)].id == x;
    }
    if i :| 0 <= i < |rows| && rows[i].id == x {
      RowAt(rows, f, i);
    }
  }

  /** The row of `x` is the one at its index. */
  lemma OneRow(rows: Rows, f: Forest, i: nat, x: BlockId)
    requires Reads(rows, f) && i < |rows|
    ensures rows[i].id == x <==> x in Ids(f) && IndexOf(f, x) == i
    ensures rows[i].id == x ==> rows[i] == Block(x, ParentOf(f, None, x), BodyOf(f, x))
  {
    RowAt(rows, f, i);
    if x in Ids(f) {
      Located(f, None, x);
    }
  }

  lemma ChildlessExactly(rows: Rows, f: Forest, x: BlockId)
    requires Reads(rows, f) && x in Ids(f)
    ensures Childless(rows, x) <==> Subtree(f, x).kids == Nil
  {
    var kids := Subtree(f, x).kids;
    if kids.Node? {
      SubtreeIds(f, x);
      assert IsRoot(kids, kids.id) && kids.id in Ids(f);
      ChildrenHaveParent(f, None, x, kids.id);
      Located(f, None, kids.id);
      assert rows[IndexOf(f, kids.id)].parent == Some(x);
    } else {
      forall k | 0 <= k < |rows| ensures rows[k].parent != Some(x) {
        RowAt(rows, f, k);
        ChildrenHaveParent(f, None, x, rows[k].id);
      }
    }
  }

  lemma FollowsExactly(rows: Rows, f: Forest, i: nat, prev: Option<BlockId>)
    requires Reads(rows, f) && i < |rows|
    ensures rows[i].id in Ids(f) && (Follows(rows, i, prev) <==> prev == PrevOf(f, rows[i].id))
  {
    var x := rows[i].id;
    RowAt(rows, f, i);
    PrevIsNearest(f, None, x);
    var p := PrevOf(f, x);
    if p.Some? {
      Located(f, None, p.value);
      assert rows[IndexOf(f, p.value)].id == p.value;
    }
    assert Follows(rows, i, p);
    if Follows(rows, i, prev) && prev.Some? {
      var j :| 0 <= j < i && rows[j].id == prev.value && rows[j].parent == rows[i].parent
               && forall k :: j < k < i ==> rows[k].parent != rows[i].parent;
      assert p.Some?;
      assert j == IndexOf(f, p.value);
    }
  }

  /** The parent of a row stands in a run exactly when the row is below the run's first. */
  lemma WithinExactly(rows: Rows, f: Forest, i: nat, k: nat)
    requires Reads(rows, f) && i < k < |rows|
    ensures rows[i].id in Ids(f)
    ensures k <= i + Size(Subtree(f, rows[i].id)) ==> (Within(rows, i, k) <==> k < i + Size(Subtree(f, rows[i].id)))
  {
    var x, y := rows[i].id, rows[k].id;
    RowAt(rows, f, i);
    RowAt(rows, f, k);
    var end := i + Size(Subtree(f, x));
    SubtreePositions(f, x, y);
    ParentLinksClosed(f, None, x, y);
    SubtreeIds(f, x);
    if k <= end {
      if y in Below(f, x) {
        var q := ParentOf(f, None, y).value;
        ParentIsEarlier(f, None, y);
        SubtreePositions(f, x, q);
        Located(f, None, q);
        assert rows[IndexOf(f, q)].id == q;
      }
      if j :| i <= j < k && rows[k].parent == Some(rows[j].id) {
        RowAt(rows, f, j);
        SubtreePositions(f, x, rows[j].id);
      }
    }
  }

  lemma RunExactly(rows: Rows, f: Forest, i: nat, e: nat)
    requires Reads(rows, f) && i < |rows|
    ensures rows[i].id in Ids(f) && (RunTo(rows, i, e) <==> e == i + Size(Subtree(f, rows[i].id)))
  {
    var x := rows[i].id;
    RowAt(rows, f, i);
    SubtreeIsRun(f, None, x);
    var end := i + Size(Subtree(f, x));
    forall k | i < k < |rows| && k <= end ensures Within(rows, i, k) <==> k < end {
      WithinExactly(rows, f, i, k);
    }
    if end < |rows| {
      assert !Within(rows, i, end);
    }
  }

  lemma MayHoldExactly(rows: Rows, f: Forest, parent: Option<BlockId>, child: BlockTag)
    requires Reads(rows, f)
    ensures MayHold(rows, parent, child) <==> ParentError(f, parent, child) == None
    ensures MayHold(rows, parent, child) && parent.Some? ==> parent.value in Ids(f)
  {
    if parent.Some? {
      HasExactly(rows, f, parent.value);
      forall j | 0 <= j < |rows| && rows[j].id == parent.value
        ensures parent.value in Ids(f) && rows[j].body == BodyOf(f, parent.value)
      {
        OneRow(rows, f, j, parent.value);
      }
    }
  }

  lemma PlaceExactly(rows: Rows, f: Forest, parent: Option<BlockId>, after: Option<BlockId>, at: nat)
    requires Reads(rows, f) && (parent.Some? ==> parent.value in Ids(f))
    ensures PlaceError(f, parent, after) == None && after.Some? ==> after.value in Ids(f)
    ensures PlaceAt(rows, parent, after, at) <==> PlaceError(f, parent, after) == None && at == PlaceIndex(f, parent, after)
  {
    match after
    case None =>
      if parent.Some? && 0 < at <= |rows| {
        OneRow(rows, f, at - 1, parent.value);
      }
    case Some(a) =>
      HasExactly(rows, f, a);
      forall j | 0 <= j < |rows| && rows[j].id == a
        ensures a in Ids(f) && IndexOf(f, a) == j && rows[j].parent == ParentOf(f, None, a)
        ensures RunTo(rows, j, at) <==> at == j + Size(Subtree(f, a))
      {
        OneRow(rows, f, j, a);
        RunExactly(rows, f, j, at);
      }
  }

  // ----- Each op

  lemma InsertOnRows(rows: Rows, f: Forest, op: Op, after: Rows)
    requires Reads(rows, f) && op.InsertBlock?
    ensures Inserts(rows, op, after) <==> StepInsert(f, op).Ok? && after == Flatten(StepInsert(f, op).value, None)
  {
    HasExactly(rows, f, op.id);
    MayHoldExactly(rows, f, op.parent, op.body.kind.tag);
    if op.id !in Ids(f) && ParentError(f, op.parent, op.body.kind.tag) == None {
      forall at ensures PlaceAt(rows, op.parent, op.after, at) <==>
                PlaceError(f, op.parent, op.after) == None && at == PlaceIndex(f, op.parent, op.after) {
        PlaceExactly(rows, f, op.parent, op.after, at);
      }
      if PlaceError(f, op.parent, op.after) == None {
        InsertedLeaf(f, op);
        LeafIsSplice(f, op.parent, op.after, op.id, op.body);
        var at := PlaceIndex(f, op.parent, op.after);
        assert rows[at + 0..] == rows[at..];
      }
    }
  }

  lemma RecordedExactly(rows: Rows, f: Forest, i: nat, x: BlockId, parent: Option<BlockId>, prev: Option<BlockId>)
    requires Reads(rows, f)
    ensures Recorded(rows, i, x, parent, prev) <==> x in Ids(f) && RecordError(f, x, parent, prev) == None && i == IndexOf(f, x)
  {
    if x in Ids(f) {
      Located(f, None, x);
    }
    if i < |rows| {
      OneRow(rows, f, i, x);
      FollowsExactly(rows, f, i, prev);
    }
  }

  lemma DeleteOnRows(rows: Rows, f: Forest, op: Op, after: Rows)
    requires Reads(rows, f) && op.DeleteBlock?
    ensures Deletes(rows, op, after) <==> StepDelete(f, op).Ok? && after == Flatten(StepDelete(f, op).value, None)
  {
    var x := op.tombstone.id;
    forall i: nat ensures Recorded(rows, i, x, op.tombstone.parent, op.after) <==>
              x in Ids(f) && RecordError(f, x, op.tombstone.parent, op.after) == None && i == IndexOf(f, x) {
      RecordedExactly(rows, f, i, x, op.tombstone.parent, op.after);
    }
    if x in Ids(f) {
      ChildlessExactly(rows, f, x);
      SubtreeIsRun(f, None, x);
      if Subtree(f, x).kids == Nil {
        var i := IndexOf(f, x);
        assert Size(Subtree(f, x)) == 1 + Size(Nil) + Size(Nil);
        assert Splice(rows, i, 1, []) == rows[..i] + rows[i + 1..];
      }
    }
  }

  lemma RelabelledRow(rows: Rows, f: Forest, x: BlockId, i: nat, body: Body)
    requires Reads(rows, f) && x in Ids(f) && i == IndexOf(f, x)
    ensures Flatten(Relabel(f, x, body), None) == rows[i := Block(x, rows[i].parent, body)]
  {
    Located(f, None, x);
    RelabelFlattens(f, None, x, body);
    assert Splice(rows, i, 1, [Block(x, rows[i].parent, body)]) == rows[i := Block(x, rows[i].parent, body)];
  }

  lemma ContentOnRows(rows: Rows, f: Forest, op: Op, after: Rows)
    requires Reads(rows, f) && op.SetBlockContent?
    ensures SetsContent(rows, op, after) <==> StepContent(f, op).Ok? && after == Flatten(StepContent(f, op).value, None)
  {
    forall i: nat | i < |rows| && rows[i].id == op.id
      ensures op.id in Ids(f) && i == IndexOf(f, op.id) && rows[i].body == BodyOf(f, op.id)
    {
      OneRow(rows, f, i, op.id);
    }
    if op.id in Ids(f) {
      var i := IndexOf(f, op.id);
      Located(f, None, op.id);
      RelabelledRow(rows, f, op.id, i, Body(rows[i].body.kind, op.content));
    }
  }

  lemma ParentTakesExactly(rows: Rows, f: Forest, i: nat, x: BlockId, tag: BlockTag)
    requires Reads(rows, f) && x in Ids(f) && i == IndexOf(f, x)
    ensures ParentTakes(rows, i, tag) <==> ListParentError(f, x, tag) == None
  {
    Located(f, None, x);
    var p := rows[i].parent;
    if p.Some? && p.value in Ids(f) {
      Located(f, None, p.value);
    }
    forall j | 0 <= j < |rows| && p == Some(rows[j].id)
      ensures p.value in Ids(f) && rows[j].body == BodyOf(f, p.value)
    {
      OneRow(rows, f, j, p.value);
    }
  }

  lemma KindOnRows(rows: Rows, f: Forest, op: Op, after: Rows)
    requires Reads(rows, f) && op.SetBlockKind?
    ensures SetsKind(rows, op, after) <==> StepKind(f, op).Ok? && after == Flatten(StepKind(f, op).value, None)
  {
    forall i: nat | i < |rows| && rows[i].id == op.id
      ensures op.id in Ids(f) && i == IndexOf(f, op.id) && rows[i].body == BodyOf(f, op.id)
    {
      OneRow(rows, f, i, op.id);
    }
    if op.id in Ids(f) {
      var i := IndexOf(f, op.id);
      Located(f, None, op.id);
      ChildlessExactly(rows, f, op.id);
      ParentTakesExactly(rows, f, i, op.id, op.toKind.tag);
      RelabelledRow(rows, f, op.id, i, Body(op.toKind, rows[i].body.content));
    }
  }

  lemma MovableExactly(rows: Rows, f: Forest, i: nat, e: nat, x: BlockId, q: Option<BlockId>)
    requires Reads(rows, f) && x in Ids(f) && i == IndexOf(f, x)
    ensures Movable(rows, i, e, q) <==>
              && e == i + Size(Subtree(f, x)) && (q.Some? ==> q.value !in Ids(Subtree(f, x)))
              && ParentError(f, q, BodyOf(f, x).kind.tag) == None
  {
    Located(f, None, x);
    RunExactly(rows, f, i, e);
    MayHoldExactly(rows, f, q, BodyOf(f, x).kind.tag);
    if RunTo(rows, i, e) {
      RunHolds(rows, f, x, i, e, q);
    }
  }

  lemma MovedRun(rows: Rows, f: Forest, x: BlockId, i: nat, e: nat, q: Option<BlockId>, a: Option<BlockId>, at: nat)
    requires Reads(rows, f) && x in Ids(f) && i == IndexOf(f, x) && e == i + Size(Subtree(f, x))
    requires Distinct(Remove(f, x)) && IsPlace(Remove(f, x), q, a) && (a.Some? ==> a.value in Ids(Remove(f, x)))
    requires at == PlaceIndex(Remove(f, x), q, a)
    ensures i < e <= |rows| && Reads(Others(rows, i, e), Remove(f, x)) && at <= |rows| - (e - i)
    ensures Flatten(Insert(Remove(f, x), q, a, Subtree(f, x)), None) == Moved(rows, i, e, at, q)
  {
    SubtreeIsRun(f, None, x);
    CutOut(rows, i, e, e - i);
    PasteSubtree(f, x, rows[i..e], q, a);
    PutBack(rows, i, e, at, q, rows[i..e]);
  }

  lemma CutOut(rows: Rows, i: nat, e: nat, n: nat)
    requires i <= e <= |rows| && n == e - i
    ensures Splice(rows, i, n, []) == Others(rows, i, e)
  {
  }

  lemma PutBack(rows: Rows, i: nat, e: nat, at: nat, q: Option<BlockId>, run: Rows)
    requires i < e <= |rows| && at <= |rows| - (e - i) && run == rows[i..e]
    ensures Splice(Others(rows, i, e), at, 0, [run[0].(parent := q)] + run[1..]) == Moved(rows, i, e, at, q)
  {
    assert run[0] == rows[i] && run[1..] == rows[i + 1..e];
    RegroupRows(Others(rows, i, e)[..at], [rows[i].(parent := q)], rows[i + 1..e]);
  }

  lemma RegroupRows(a: Rows, b: Rows, c: Rows)
    ensures a + b + c == a + (b + c)
  {
  }

  lemma MoveOnRows(rows: Rows, f: Forest, op: Op, after: Rows)
    requires Reads(rows, f) && op.MoveBlock?
    ensures Moves(rows, op, after) <==> StepMove(f, op).Ok? && after == Flatten(StepMove(f, op).value, None)
  {
    var x, q, a := op.id, op.toParent, op.to;
    MayMoveExactly(rows, f, op);
    if MoveError(f, op) == None {
      MayHoldExactly(rows, f, q, BodyOf(f, x).kind.tag);
      LandsExactly(rows, f, x, IndexOf(f, x), IndexOf(f, x) + Size(Subtree(f, x)), q, a, after);
    }
  }

  /** The one run a move may take away. */
  lemma MayMoveExactly(rows: Rows, f: Forest, op: Op)
    requires Reads(rows, f) && op.MoveBlock?
    ensures forall i: nat, e: nat ::
              MayMove(rows, i, e, op) <==>
              MoveError(f, op) == None && i == IndexOf(f, op.id) && e == i + Size(Subtree(f, op.id))
  {
    var x, q := op.id, op.toParent;
    forall i: nat, e: nat ensures MayMove(rows, i, e, op) <==>
              MoveError(f, op) == None && i == IndexOf(f, x) && e == i + Size(Subtree(f, x)) {
      RecordedExactly(rows, f, i, x, op.fromParent, op.from);
      if x in Ids(f) && i == IndexOf(f, x) {
        MovableExactly(rows, f, i, e, x, q);
      }
    }
  }

  lemma LandsExactly(rows: Rows, f: Forest, x: BlockId, i: nat, e: nat, q: Option<BlockId>, a: Option<BlockId>, after: Rows)
    requires Reads(rows, f) && x in Ids(f) && i == IndexOf(f, x) && e == i + Size(Subtree(f, x))
    requires q.Some? ==> q.value in Ids(f) && q.value !in Ids(Subtree(f, x))
    ensures Lands(rows, i, e, q, a, after) <==>
              PlaceError(Remove(f, x), q, a) == None && after == Flatten(Insert(Remove(f, x), q, a, Subtree(f, x)), None)
  {
    var g := Remove(f, x);
    RestReads(rows, f, x, i, e);
    PlaceErrorIsPlace(g, q, a);
    forall at ensures PlaceAt(Others(rows, i, e), q, a, at) <==> PlaceError(g, q, a) == None && at == PlaceIndex(g, q, a) {
      PlaceExactly(Others(rows, i, e), g, q, a, at);
    }
    if PlaceError(g, q, a) == None {
      PlaceInIds(g, q, a);
      MovedRun(rows, f, x, i, e, q, a, PlaceIndex(g, q, a));
    }
  }

  lemma RestReads(rows: Rows, f: Forest, x: BlockId, i: nat, e: nat)
    requires Reads(rows, f) && x in Ids(f) && i == IndexOf(f, x) && e == i + Size(Subtree(f, x))
    ensures i < e <= |rows| && Reads(Others(rows, i, e), Remove(f, x)) && Ids(Remove(f, x)) == Ids(f) - Ids(Subtree(f, x))
  {
    RemoveIds(f, x);
    SubtreeIsRun(f, None, x);
    CutOut(rows, i, e, e - i);
  }

  /** An op takes the page to exactly what its rows say, and is accepted only where they allow it. */
  lemma StepOnRows(s: State, op: Op, titleAfter: string, after: Rows)
    requires Distinct(s.forest)
    ensures Changes(s.title, Flatten(s.forest, None), op, titleAfter, after) <==>
      && Step(s, op).Ok? && titleAfter == Step(s, op).value.title
      && after == Flatten(Step(s, op).value.forest, None)
  {
    var f, rows := s.forest, Flatten(s.forest, None);
    match op
    case InsertBlock(_, _, _, _) => InsertOnRows(rows, f, op, after);
    case DeleteBlock(_, _) => DeleteOnRows(rows, f, op, after);
    case SetBlockKind(_, _, _) => KindOnRows(rows, f, op, after);
    case SetBlockContent(_, _, _) => ContentOnRows(rows, f, op, after);
    case MoveBlock(_, _, _, _, _) => MoveOnRows(rows, f, op, after);
    case SetTitle(_, _, _) =>
  }

  // ----- Refusals

  lemma ParentRefused(rows: Rows, f: Forest, parent: Option<BlockId>, child: BlockTag)
    requires Reads(rows, f) && ParentError(f, parent, child).Some?
    ensures parent.Some? && RefusedParent(rows, parent.value, child, ParentError(f, parent, child).value)
  {
    HasExactly(rows, f, parent.value);
    if parent.value in Ids(f) {
      Located(f, None, parent.value);
      assert rows[IndexOf(f, parent.value)].id == parent.value;
    }
  }

  lemma PlaceRefused(rows: Rows, f: Forest, parent: Option<BlockId>, after: Option<BlockId>)
    requires Reads(rows, f) && PlaceError(f, parent, after).Some?
    ensures RefusedPlace(rows, parent, after, PlaceError(f, parent, after).value)
  {
    if after.Some? {
      HasExactly(rows, f, after.value);
      if after.value in Ids(f) {
        Located(f, None, after.value);
        assert rows[IndexOf(f, after.value)].id == after.value;
      }
    }
  }

  lemma RecordRefused(rows: Rows, f: Forest, x: BlockId, parent: Option<BlockId>, prev: Option<BlockId>)
    requires Reads(rows, f) && x in Ids(f)
    ensures IsRecorded(rows, x, parent, prev) <==> RecordError(f, x, parent, prev) == None
    ensures RecordError(f, x, parent, prev).Some? ==> RefusedRecord(rows, x, parent, prev, RecordError(f, x, parent, prev).value)
  {
    var i := IndexOf(f, x);
    Located(f, None, x);
    FollowsExactly(rows, f, i, PrevOf(f, x));
    assert rows[i].id == x;
    RecordedExactly(rows, f, i, x, parent, prev);
    if j: nat :| Recorded(rows, j, x, parent, prev) {
      RecordedExactly(rows, f, j, x, parent, prev);
    }
  }

  lemma InsertRefused(page: PageId, rows: Rows, f: Forest, op: Op)
    requires Reads(rows, f) && op.InsertBlock? && StepInsert(f, op).Err?
    ensures Refuses(page, rows, op, StepInsert(f, op).error)
  {
    HasExactly(rows, f, op.id);
    MayHoldExactly(rows, f, op.parent, op.body.kind.tag);
    if op.id !in Ids(f) {
      if ParentError(f, op.parent, op.body.kind.tag).Some? {
        ParentRefused(rows, f, op.parent, op.body.kind.tag);
      } else {
        PlaceRefused(rows, f, op.parent, op.after);
      }
    }
  }

  lemma DeleteRefused(page: PageId, rows: Rows, f: Forest, op: Op)
    requires Reads(rows, f) && op.DeleteBlock? && StepDelete(f, op).Err?
    ensures Refuses(page, rows, op, StepDelete(f, op).error)
  {
    var x := op.tombstone.id;
    HasExactly(rows, f, x);
    if x in Ids(f) {
      RecordRefused(rows, f, x, op.tombstone.parent, op.after);
      ChildlessExactly(rows, f, x);
    }
  }

  lemma KindRefused(page: PageId, rows: Rows, f: Forest, op: Op)
    requires Reads(rows, f) && op.SetBlockKind? && StepKind(f, op).Err?
    ensures Refuses(page, rows, op, StepKind(f, op).error)
  {
    var x := op.id;
    HasExactly(rows, f, x);
    if x in Ids(f) {
      Located(f, None, x);
      ChildlessExactly(rows, f, x);
      assert RefusedKind(rows, IndexOf(f, x), op, StepKind(f, op).error);
    }
  }

  lemma MoveRefused(page: PageId, rows: Rows, f: Forest, op: Op)
    requires Reads(rows, f) && op.MoveBlock? && StepMove(f, op).Err?
    ensures Refuses(page, rows, op, StepMove(f, op).error)
  {
    var x := op.id;
    HasExactly(rows, f, x);
    if x in Ids(f) {
      RecordRefused(rows, f, x, op.fromParent, op.from);
      if RecordError(f, x, op.fromParent, op.from) == None {
        var i := IndexOf(f, x);
        var end := i + Size(Subtree(f, x));
        RecordedExactly(rows, f, i, x, op.fromParent, op.from);
        RunExactly(rows, f, i, end);
        TargetRefused(rows, f, op, i, end);
      }
    }
  }

  lemma TargetRefused(rows: Rows, f: Forest, op: Op, i: nat, end: nat)
    requires Reads(rows, f) && op.MoveBlock? && op.id in Ids(f) && StepMove(f, op).Err?
    requires RecordError(f, op.id, op.fromParent, op.from) == None
    requires i == IndexOf(f, op.id) && end == i + Size(Subtree(f, op.id)) && i < end <= |rows|
    ensures RefusedMove(rows, i, end, op, StepMove(f, op).error)
  {
    var x, q := op.id, op.toParent;
    Located(f, None, x);
    RunHolds(rows, f, x, i, end, q);
    MayHoldExactly(rows, f, q, BodyOf(f, x).kind.tag);
    if MoveError(f, op) == None {
      RestReads(rows, f, x, i, end);
      PlaceRefused(Others(rows, i, end), Remove(f, x), q, op.to);
    } else if !(q.Some? && q.value in Ids(Subtree(f, x))) {
      ParentRefused(rows, f, q, BodyOf(f, x).kind.tag);
    }
  }

  lemma RunHolds(rows: Rows, f: Forest, x: BlockId, i: nat, end: nat, q: Option<BlockId>)
    requires Reads(rows, f) && x in Ids(f) && i == IndexOf(f, x) && end == i + Size(Subtree(f, x)) <= |rows|
    ensures (exists k :: i <= k < end && q == Some(rows[k].id)) <==> q.Some? && q.value in Ids(Subtree(f, x))
  {
    SubtreeIds(f, x);
    if q.Some? && q.value in Ids(Subtree(f, x)) {
      SubtreePositions(f, x, q.value);
      Located(f, None, q.value);
      assert rows[IndexOf(f, q.value)].id == q.value;
    }
    if k :| i <= k < end && q == Some(rows[k].id) {
      RowAt(rows, f, k);
      SubtreePositions(f, x, rows[k].id);
    }
  }

  /** A refused op is refused for the first of its checks that fails. */
  lemma StepRefused(s: State, op: Op)
    requires Distinct(s.forest) && Step(s, op).Err?
    ensures Refuses(s.page, Flatten(s.forest, None), op, Step(s, op).error)
  {
    var f, rows := s.forest, Flatten(s.forest, None);
    match op
    case InsertBlock(_, _, _, _) => InsertRefused(s.page, rows, f, op);
    case DeleteBlock(_, _) => DeleteRefused(s.page, rows, f, op);
    case SetBlockKind(_, _, _) => KindRefused(s.page, rows, f, op);
    case SetBlockContent(x, _, _) => HasExactly(rows, f, x);
    case MoveBlock(_, _, _, _, _) => MoveRefused(s.page, rows, f, op);
    case SetTitle(_, _, _) =>
  }

  lemma CutLeaves(rows: Rows, f: Forest, op: Op)
    requires Reads(rows, f) && op.MoveBlock? && MoveError(f, op) == None
    ensures LeavesRows(rows, op, Flatten(Remove(f, op.id), None) + seq(Size(Subtree(f, op.id)), _ => ZERO_BLOCK))
  {
    var i, n := IndexOf(f, op.id), Size(Subtree(f, op.id));
    MayMoveExactly(rows, f, op);
    RestReads(rows, f, op.id, i, i + n);
    assert MayMove(rows, i, i + n, op);
  }

  lemma RefusedLeaves(rows: Rows, f: Forest, op: Op)
    requires Reads(rows, f) && (op.MoveBlock? ==> MoveError(f, op).Some?)
    ensures LeavesRows(rows, op, rows)
  {
    if op.MoveBlock? {
      MayMoveExactly(rows, f, op);
    }
  }

  /** An accepted op answers for the rows it leaves. */
  lemma AcceptedAnswers(s: State, op: Op)
    requires Distinct(s.forest) && Step(s, op).Ok?
    ensures var t := Step(s, op).value; Answers(s.page, s.title, Flatten(s.forest, None), op, None, t.title, Flatten(t.forest, None))
  {
    var t := Step(s, op).value;
    StepOnRows(s, op, t.title, Flatten(t.forest, None));
  }

  lemma RefusedAnswers(s: State, op: Op, now: Rows)
    requires Distinct(s.forest) && Step(s, op).Err? && LeavesRows(Flatten(s.forest, None), op, now)
    ensures Answers(s.page, s.title, Flatten(s.forest, None), op, Some(Step(s, op).error), s.title, now)
  {
    forall t, r ensures !Changes(s.title, Flatten(s.forest, None), op, t, r) {
      StepOnRows(s, op, t, r);
    }
    StepRefused(s, op);
  }
}
