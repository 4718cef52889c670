// Page ops and inverses.

module Operations {
  // What accepting each op means on the forest; the slice code is proved against `Step` in Pages.dfy.

  import opened Options
  import opened Blocks
  import opened Forests
  import opened ForestAlgebra

  datatype Op =
    | InsertBlock(id: BlockId, parent: Option<BlockId>, after: Option<BlockId>, body: Body)
    | DeleteBlock(tombstone: Block, after: Option<BlockId>)
    | SetBlockKind(id: BlockId, fromKind: BlockKind, toKind: BlockKind)
    | SetBlockContent(id: BlockId, prev: Content, content: Content)
    | SetTitle(page: PageId, fromTitle: string, toTitle: string)
    | MoveBlock(id: BlockId, fromParent: Option<BlockId>, from: Option<BlockId>,
                toParent: Option<BlockId>, to: Option<BlockId>)
  {
    function Invert(): Op {
      match this
      case InsertBlock(id, parent, after, body) => DeleteBlock(Block(id, parent, body), after)
      case DeleteBlock(tombstone, after) => InsertBlock(tombstone.id, tombstone.parent, after, tombstone.body)
      case SetBlockKind(id, fromKind, toKind) => SetBlockKind(id, toKind, fromKind)
      case SetBlockContent(id, prev, content) => SetBlockContent(id, content, prev)
      case SetTitle(page, fromTitle, toTitle) => SetTitle(page, toTitle, fromTitle)
      case MoveBlock(id, fromParent, from, toParent, to) => MoveBlock(id, toParent, to, fromParent, from)
    }
  }

  datatype Error =
    | BlockNotFound(id: BlockId)
    | DuplicateBlockId(id: BlockId)
    | PositionMismatch(id: BlockId, want: Option<BlockId>, got: Option<BlockId>)
    | ParentMismatch(id: BlockId, want: Option<BlockId>, got: Option<BlockId>)
    | PreconditionFailed(target: nat, field: string)
    | NotAContainer(id: BlockId)
    | ContainerNotEmpty(id: BlockId)
    | InvalidListChild(parent: BlockId, tag: BlockTag)
    | WouldCycle(id: BlockId, newParent: BlockId)

  // A page read as a forest.
  datatype State = State(page: PageId, title: string, forest: Forest)

  /** Why a block tagged `child` may not go under `parent`, if it may not. */
  function ParentError(f: Forest, parent: Option<BlockId>, child: BlockTag): Option<Error> {
    if parent == None then None
    else if parent.value !in Ids(f) then Some(BlockNotFound(parent.value))
    else
      var tag := BodyOf(f, parent.value).kind.tag;
      if !tag.IsContainer() then Some(NotAContainer(parent.value))
      else if !ChildAllowed(tag, child) then Some(InvalidListChild(parent.value, child))
      else None
  }

  /** Why (parent, after) names no position, if it does not. */
  function PlaceError(f: Forest, parent: Option<BlockId>, after: Option<BlockId>): Option<Error> {
    match after
    case None =>
      if parent.Some? && parent.value !in Ids(f) then Some(BlockNotFound(parent.value)) else None
    case Some(a) =>
      if a !in Ids(f) then Some(BlockNotFound(a))
      else if ParentOf(f, None, a) != parent then Some(ParentMismatch(a, parent, ParentOf(f, None, a)))
      else None
  }

  /** Why `x` is not recorded as the child of `parent` right after `after`, if it is not. */
  function RecordError(f: Forest, x: BlockId, parent: Option<BlockId>, after: Option<BlockId>): Option<Error>
    requires x in Ids(f)
  {
    if ParentOf(f, None, x) != parent then Some(ParentMismatch(x, parent, ParentOf(f, None, x)))
    else if PrevOf(f, x) != after then Some(PositionMismatch(x, after, PrevOf(f, x)))
    else None
  }

  function ListParentError(f: Forest, x: BlockId, tag: BlockTag): Option<Error>
    requires x in Ids(f)
  {
    var parent := ParentOf(f, None, x);
    if parent.Some? && parent.value in Ids(f) && !ChildAllowed(BodyOf(f, parent.value).kind.tag, tag)
    then Some(InvalidListChild(parent.value, tag))
    else None
  }

  function StepInsert(f: Forest, op: Op): Result<Forest, Error>
    requires op.InsertBlock?
  {
    if op.id in Ids(f) then Err(DuplicateBlockId(op.id)) else
    var e := ParentError(f, op.parent, op.body.kind.tag);
    if e.Some? then Err(e.value) else
    var e := PlaceError(f, op.parent, op.after);
    if e.Some? then Err(e.value) else
    Ok(Insert(f, op.parent, op.after, Node(op.id, op.body, Nil, Nil)))
  }

  function StepDelete(f: Forest, op: Op): Result<Forest, Error>
    requires op.DeleteBlock?
  {
    var x := op.tombstone.id;
    if x !in Ids(f) then Err(BlockNotFound(x)) else
    var e := RecordError(f, x, op.tombstone.parent, op.after);
    if e.Some? then Err(e.value)
    else if Subtree(f, x).kids != Nil then Err(ContainerNotEmpty(x))
    else Ok(Remove(f, x))
  }

  function StepKind(f: Forest, op: Op): Result<Forest, Error>
    requires op.SetBlockKind?
  {
    if op.id !in Ids(f) then Err(BlockNotFound(op.id))
    else if BodyOf(f, op.id).kind != op.fromKind then Err(PreconditionFailed(op.id, "kind"))
    else if op.fromKind.tag.IsContainer() && !op.toKind.tag.IsContainer() && Subtree(f, op.id).kids != Nil then
      Err(ContainerNotEmpty(op.id))
    else
      var e := ListParentError(f, op.id, op.toKind.tag);
      if e.Some? then Err(e.value)
      else Ok(Relabel(f, op.id, BodyOf(f, op.id).(kind := op.toKind)))
  }

  function StepContent(f: Forest, op: Op): Result<Forest, Error>
    requires op.SetBlockContent?
  {
    if op.id !in Ids(f) then Err(BlockNotFound(op.id))
    else if BodyOf(f, op.id).content != op.prev then Err(PreconditionFailed(op.id, "content"))
    else Ok(Relabel(f, op.id, BodyOf(f, op.id).(content := op.content)))
  }

  /** Everything a move checks before it touches the slice. */
  function MoveError(f: Forest, op: Op): Option<Error>
    requires op.MoveBlock?
  {
    if op.id !in Ids(f) then Some(BlockNotFound(op.id)) else
    var e := RecordError(f, op.id, op.fromParent, op.from);
    if e.Some? then e
    else if op.toParent.Some? && op.toParent.value in Ids(Subtree(f, op.id)) then
      Some(WouldCycle(op.id, op.toParent.value))
    else ParentError(f, op.toParent, BodyOf(f, op.id).kind.tag)
  }

  function StepMove(f: Forest, op: Op): Result<Forest, Error>
    requires op.MoveBlock?
  {
    var e := MoveError(f, op);
    if e.Some? then Err(e.value) else
    var g := Remove(f, op.id);
    var e := PlaceError(g, op.toParent, op.to);
    if e.Some? then Err(e.value) else
    Ok(Insert(g, op.toParent, op.to, Subtree(f, op.id)))
  }

  function StepForest(f: Forest, op: Op): Result<Forest, Error>
    requires !op.SetTitle?
  {
    match op
    case InsertBlock(_, _, _, _) => StepInsert(f, op)
    case DeleteBlock(_, _) => StepDelete(f, op)
    case SetBlockKind(_, _, _) => StepKind(f, op)
    case SetBlockContent(_, _, _) => StepContent(f, op)
    case MoveBlock(_, _, _, _, _) => StepMove(f, op)
  }

  /** What `Page.Apply` does, on the forest. */
  function Step(s: State, op: Op): Result<State, Error> {
    if op.SetTitle? then
      if s.title != op.fromTitle then Err(PreconditionFailed(s.page, "title"))
      else Ok(s.(title := op.toTitle))
    else match StepForest(s.forest, op)
      case Err(e) => Err(e)
      case Ok(g) => Ok(s.(forest := g))
  }

  // ----- Positions named by ops

  lemma PlaceErrorIsPlace(f: Forest, parent: Option<BlockId>, after: Option<BlockId>)
    requires Distinct(f) && (parent.Some? ==> parent.value in Ids(f))
    ensures PlaceError(f, parent, after) == None <==> IsPlace(f, parent, after)
  {
    if after.Some? {
      var a := after.value;
      if a in Ids(f) {
        RootsHaveNoParent(f, None, a);
        if parent.Some? {
          ChildrenHaveParent(f, None, parent.value, a);
        }
      } else {
        NotRoot(f, a);
        if parent.Some? {
          SubtreeIds(f, parent.value);
          NotRoot(Subtree(f, parent.value).kids, a);
        }
      }
    }
  }

  /** The block an op names obeys the list-item rule where the op finds it.
      Only the inverses of these three put a kind back under a parent. */
  predicate KindFitsParent(f: Forest, op: Op) {
    match op
    case DeleteBlock(tombstone, _) =>
      tombstone.id in Ids(f) && ListParentError(f, tombstone.id, BodyOf(f, tombstone.id).kind.tag) == None
    case SetBlockKind(id, _, _) => id in Ids(f) && ListParentError(f, id, BodyOf(f, id).kind.tag) == None
    case MoveBlock(id, _, _, _, _) => id in Ids(f) && ListParentError(f, id, BodyOf(f, id).kind.tag) == None
    case _ => true
  }

  /** A delete carries the block it removes. `Apply` does not check this. */
  predicate TombstoneExact(f: Forest, op: Op) {
    op.DeleteBlock? ==> op.tombstone.id in Ids(f) && op.tombstone.body == BodyOf(f, op.tombstone.id)
  }

  // ----- What every accepted op keeps

  lemma InsertedLeaf(f: Forest, op: Op)
    requires Distinct(f) && op.InsertBlock? && StepInsert(f, op).Ok?
    ensures IsPlace(f, op.parent, op.after)
    ensures var leaf := Node(op.id, op.body, Nil, Nil);
      && Distinct(leaf) && Ids(leaf) == {op.id} && Ids(f) !! Ids(leaf)
      && (forall rule :: Obeys(rule, leaf))
  {
    PlaceErrorIsPlace(f, op.parent, op.after);
    assert Ids(Nil) == {} && Distinct(Nil);
    forall rule ensures Obeys(rule, Node(op.id, op.body, Nil, Nil)) {
      assert Obeys(rule, Nil) && RootsAllowed(rule, op.body.kind.tag, Nil);
    }
  }

  lemma MovedTree(f: Forest, op: Op)
    requires Distinct(f) && op.MoveBlock? && StepMove(f, op).Ok?
    ensures op.id in Ids(f)
    ensures var g, t := Remove(f, op.id), Subtree(f, op.id);
      && Distinct(g) && Distinct(t) && Ids(g) !! Ids(t) && Ids(f) == Ids(g) + Ids(t)
      && IsPlace(g, op.toParent, op.to)
      && (op.toParent.Some? ==> op.toParent.value in Ids(f) && BodyOf(g, op.toParent.value) == BodyOf(f, op.toParent.value))
  {
    RemoveIds(f, op.id);
    SubtreeIds(f, op.id);
    if op.toParent.Some? {
      RemoveKeepsBodies(f, op.id, op.toParent.value);
    }
    PlaceErrorIsPlace(Remove(f, op.id), op.toParent, op.to);
  }

  /** Every accepted op keeps the page a forest of distinct blocks under containers. */
  lemma StepKeepsWellFormed(s: State, op: Op)
    requires WellFormed(s.forest) && Step(s, op).Ok?
    ensures WellFormed(Step(s, op).value.forest)
  {
    var f := s.forest;
    match op
    case SetTitle(_, _, _) =>
    case InsertBlock(_, parent, after, body) =>
      InsertedLeaf(f, op);
      InsertIds(f, parent, after, Node(op.id, body, Nil, Nil));
      InsertObeys(ContainerRule, f, parent, after, Node(op.id, body, Nil, Nil));
    case DeleteBlock(tombstone, _) =>
      RemoveIds(f, tombstone.id);
      RemoveObeys(ContainerRule, Paragraph, f, tombstone.id);
    case SetBlockKind(id, _, toKind) =>
      RelabelledStaysWellFormed(f, id, BodyOf(f, id).(kind := toKind));
    case SetBlockContent(id, _, content) =>
      RelabelledStaysWellFormed(f, id, BodyOf(f, id).(content := content));
    case MoveBlock(id, _, _, toParent, to) =>
      MovedTree(f, op);
      InsertIds(Remove(f, id), toParent, to, Subtree(f, id));
      RemoveObeys(ContainerRule, Paragraph, f, id);
      SubtreeObeys(ContainerRule, f, id);
      InsertObeys(ContainerRule, Remove(f, id), toParent, to, Subtree(f, id));
  }

  lemma {:induction false} ContainerHoldsAll(tag: BlockTag, f: Forest)
    requires tag.IsContainer()
    ensures RootsAllowed(ContainerRule, tag, f)
  {
    if f.Node? {
      ContainerHoldsAll(tag, f.rest);
    }
  }

  /** A well-formed node with children is a container. */
  lemma ParentsAreContainers(f: Forest, x: BlockId)
    requires WellFormed(f) && x in Ids(f) && Subtree(f, x).kids != Nil
    ensures BodyOf(f, x).kind.tag.IsContainer()
  {
  }

  lemma RelabelledStaysWellFormed(f: Forest, x: BlockId, body: Body)
    requires WellFormed(f) && x in Ids(f)
    requires Subtree(f, x).kids == Nil || !BodyOf(f, x).kind.tag.IsContainer() || body.kind.tag.IsContainer()
    ensures WellFormed(Relabel(f, x, body))
  {
    RelabelKeepsTree(f, None, x, body);
    ObeysAtNode(ContainerRule, f, None, x);
    RelabelObeys(ContainerRule, f, None, x, body);
    if Subtree(f, x).kids != Nil {
      ParentsAreContainers(f, x);
      ContainerHoldsAll(body.kind.tag, Subtree(f, x).kids);
    }
  }

  /** The list-item rule survives every accepted op, except a kind change to a
      list item over children the rule forbids, which breaks it. */
  lemma StepKeepsListRule(s: State, op: Op)
    requires WellFormed(s.forest) && Obeys(ListItemRule, s.forest) && Step(s, op).Ok?
    ensures Obeys(ListItemRule, Step(s, op).value.forest) <==>
            (op.SetBlockKind? ==> RootsAllowed(ListItemRule, op.toKind.tag, Subtree(s.forest, op.id).kids))
  {
    var f := s.forest;
    match op
    case SetTitle(_, _, _) =>
    case InsertBlock(_, parent, after, body) =>
      InsertedLeaf(f, op);
      InsertObeys(ListItemRule, f, parent, after, Node(op.id, body, Nil, Nil));
    case DeleteBlock(tombstone, _) =>
      RemoveObeys(ListItemRule, Paragraph, f, tombstone.id);
    case SetBlockKind(id, _, toKind) =>
      RootsHaveNoParent(f, None, id);
      RelabelObeys(ListItemRule, f, None, id, BodyOf(f, id).(kind := toKind));
    case SetBlockContent(id, _, content) =>
      RootsHaveNoParent(f, None, id);
      ObeysAtNode(ListItemRule, f, None, id);
      RelabelObeys(ListItemRule, f, None, id, BodyOf(f, id).(content := content));
      SubtreeObeys(ListItemRule, f, id);
    case MoveBlock(id, _, _, toParent, to) =>
      MovedTree(f, op);
      RemoveObeys(ListItemRule, Paragraph, f, id);
      SubtreeObeys(ListItemRule, f, id);
      InsertObeys(ListItemRule, Remove(f, id), toParent, to, Subtree(f, id));
  }

  /** A page that obeys the list-item rule satisfies the kind condition of every op it accepts. */
  lemma ListRuleMeansFit(s: State, op: Op)
    requires WellFormed(s.forest) && Obeys(ListItemRule, s.forest) && Step(s, op).Ok?
    ensures KindFitsParent(s.forest, op)
  {
    var f := s.forest;
    match op
    case DeleteBlock(tombstone, _) => ObeysAtNode(ListItemRule, f, None, tombstone.id);
    case SetBlockKind(id, _, _) => ObeysAtNode(ListItemRule, f, None, id);
    case MoveBlock(id, _, _, _, _) => ObeysAtNode(ListItemRule, f, None, id);
    case _ =>
  }

  // ----- Undoing one op

  lemma InvertTwice(op: Op)
    ensures op.Invert().Invert() == op
  {
  }

  lemma UndoInsert(f: Forest, op: Op)
    requires WellFormed(f) && op.InsertBlock? && StepInsert(f, op).Ok?
    ensures StepDelete(StepInsert(f, op).value, op.Invert()) == Ok(f)
  {
    InsertedLeaf(f, op);
    InsertPlaces(f, None, op.parent, op.after, Node(op.id, op.body, Nil, Nil));
  }

  lemma UndoDelete(f: Forest, op: Op)
    requires WellFormed(f) && op.DeleteBlock? && StepDelete(f, op).Ok?
    ensures StepInsert(StepDelete(f, op).value, op.Invert()) == Ok(f)
        <==> KindFitsParent(f, op) && TombstoneExact(f, op)
  {
    var x, g, parent, after, body := op.tombstone.id, Remove(f, op.tombstone.id), op.tombstone.parent, op.after, op.tombstone.body;
    RemoveIds(f, x);
    SubtreeIds(f, x);
    RootsHaveNoParent(f, None, x);
    RemovedGoesBack(f, None, x);
    assert Ids(Nil) == {};
    if parent.Some? {
      ParentLinksClosed(f, None, x, x);
      RemoveKeepsBodies(f, x, parent.value);
      ObeysAtNode(ContainerRule, f, None, x);
    }
    PlaceErrorIsPlace(g, parent, after);
    assert Subtree(f, x) == Node(x, BodyOf(f, x), Nil, Nil);
    assert StepInsert(g, op.Invert()).Ok? <==> ParentError(g, parent, body.kind.tag) == None;
    InsertPlaces(g, None, parent, after, Node(x, body, Nil, Nil));
  }

  lemma UndoKind(f: Forest, op: Op)
    requires WellFormed(f) && op.SetBlockKind? && StepKind(f, op).Ok?
    ensures StepKind(StepKind(f, op).value, op.Invert()) == Ok(f) <==> KindFitsParent(f, op)
  {
    var x, body := op.id, BodyOf(f, op.id).(kind := op.toKind);
    RelabelKeepsTree(f, None, x, body);
    RootsHaveNoParent(f, None, x);
    ParentLinksClosed(f, None, x, x);
    SubtreeIds(f, x);
    var q := ParentOf(f, None, x);
    if q.Some? {
      RelabelKeepsBodies(f, x, body, q.value);
    }
    if Subtree(f, x).kids != Nil {
      ParentsAreContainers(f, x);
    }
  }

  lemma UndoContent(f: Forest, op: Op)
    requires WellFormed(f) && op.SetBlockContent? && StepContent(f, op).Ok?
    ensures StepContent(StepContent(f, op).value, op.Invert()) == Ok(f)
  {
    RelabelKeepsTree(f, None, op.id, BodyOf(f, op.id).(content := op.content));
  }

  lemma UndoMove(f: Forest, op: Op)
    requires WellFormed(f) && op.MoveBlock? && StepMove(f, op).Ok?
    ensures StepMove(StepMove(f, op).value, op.Invert()) == Ok(f) <==> KindFitsParent(f, op)
  {
    var x, g, t, q := op.id, Remove(f, op.id), Subtree(f, op.id), op.fromParent;
    MovedTree(f, op);
    InsertPlaces(g, None, op.toParent, op.to, t);
    var h := Insert(g, op.toParent, op.to, t);
    RootsHaveNoParent(f, None, x);
    RemovedGoesBack(f, None, x);
    PlaceErrorIsPlace(g, q, op.from);
    InsertIds(g, op.toParent, op.to, t);
    if q.Some? {
      SubtreeIds(f, x);
      ParentLinksClosed(f, None, x, x);
      RemoveKeepsBodies(f, x, q.value);
      InsertKeepsBodies(g, op.toParent, op.to, t, q.value);
      ObeysAtNode(ContainerRule, f, None, x);
    }
  }

  /** The inverse law, exactly. After an accepted op, the recorded inverse is
      accepted and gives back the whole page if and only if a delete's tombstone
      was the block it removed and the block the op names obeyed the list-item
      rule where it stood. */
  lemma InverseLaw(s: State, op: Op)
    requires WellFormed(s.forest) && Step(s, op).Ok?
    ensures Step(Step(s, op).value, op.Invert()) == Ok(s)
        <==> KindFitsParent(s.forest, op) && TombstoneExact(s.forest, op)
  {
    match op
    case InsertBlock(_, _, _, _) => UndoInsert(s.forest, op);
    case DeleteBlock(_, _) => UndoDelete(s.forest, op);
    case SetBlockKind(_, _, _) => UndoKind(s.forest, op);
    case SetBlockContent(_, _, _) => UndoContent(s.forest, op);
    case SetTitle(_, _, _) =>
    case MoveBlock(_, _, _, _, _) => UndoMove(s.forest, op);
  }
}
