// Where the index walks of the slice code land: the facts about a flattened
// forest that make a row-by-row scan find a parent, a sibling or a subtree's end.

module Positions {
  import opened Options
  import opened Blocks
  import opened Forests
  import opened ForestAlgebra
  import opened Operations

  /** The slice `blocks` is the flattening of the forest `f`. */
  ghost predicate Reads(blocks: seq<Block>, f: Forest) {
    Distinct(f) && blocks == Flatten(f, None)
  }

  /** Every id of the forest heads exactly one row, holding its parent and body. */
  lemma {:induction false} Located(f: Forest, root: Option<BlockId>, x: BlockId)
    requires Distinct(f) && x in Ids(f)
    ensures Flatten(f, root)[IndexOf(f, x)] == Block(x, ParentOf(f, root, x), BodyOf(f, x))
  {
    var s, i, t := Flatten(f, root), IndexOf(f, x), Subtree(f, x);
    SubtreeIsRun(f, root, x);
    assert Size(t) >= 1;
    assert s[i] == s[i..i + Size(t)][0] == Flatten(t, ParentOf(f, root, x))[0];
  }

  /** The row at `i` belongs to the forest and `IndexOf` points back at it. */
  lemma RowAt(blocks: seq<Block>, f: Forest, i: nat)
    requires Reads(blocks, f) && i < |blocks|
    ensures var x := blocks[i].id;
      && x in Ids(f) && IndexOf(f, x) == i
      && blocks[i] == Block(x, ParentOf(f, None, x), BodyOf(f, x))
  {
    FlattenIds(f, None, i);
    Located(f, None, blocks[i].id);
  }

  /** A subtree's ids are the ids of its run of rows, and of no other row. */
  lemma {:induction false} SubtreePositions(f: Forest, x: BlockId, y: BlockId)
    requires Distinct(f) && x in Ids(f) && y in Ids(f)
    ensures y in Ids(Subtree(f, x)) <==> IndexOf(f, x) <= IndexOf(f, y) < IndexOf(f, x) + Size(Subtree(f, x))
    ensures y in Below(f, x) <==> IndexOf(f, x) < IndexOf(f, y) < IndexOf(f, x) + Size(Subtree(f, x))
  {
    SubtreeIds(f, x);
    Located(f, None, y);
    Located(f, None, x);
    if y in Ids(Subtree(f, x)) {
      SubtreeIsInRun(f, x, y);
    }
    if IndexOf(f, x) <= IndexOf(f, y) < IndexOf(f, x) + Size(Subtree(f, x)) {
      RunIsInSubtree(f, x, y);
    }
  }

  lemma SliceAt<T>(s: seq<T>, i: nat, n: nat, j: nat, at: nat)
    requires j < n && at == i + j && i + n <= |s|
    ensures s[i..i + n][j] == s[at]
  {
  }

  lemma SubtreeIsInRun(f: Forest, x: BlockId, y: BlockId)
    requires Distinct(f) && x in Ids(f) && y in Ids(f) && y in Ids(Subtree(f, x))
    ensures IndexOf(f, x) <= IndexOf(f, y) < IndexOf(f, x) + Size(Subtree(f, x))
  {
    var s, i, t, p := Flatten(f, None), IndexOf(f, x), Subtree(f, x), ParentOf(f, None, x);
    SubtreeIsRun(f, None, x);
    SubtreeIds(f, x);
    Located(t, p, y);
    var at := i + IndexOf(t, y);
    SliceAt(s, i, Size(t), IndexOf(t, y), at);
    FlattenIds(f, None, at);
  }

  lemma RunIsInSubtree(f: Forest, x: BlockId, y: BlockId)
    requires Distinct(f) && x in Ids(f) && y in Ids(f)
    requires IndexOf(f, x) <= IndexOf(f, y) < IndexOf(f, x) + Size(Subtree(f, x))
    ensures y in Ids(Subtree(f, x))
  {
    var s, i, t, p := Flatten(f, None), IndexOf(f, x), Subtree(f, x), ParentOf(f, None, x);
    SubtreeIsRun(f, None, x);
    Located(f, None, y);
    var at := IndexOf(f, y) - i;
    SliceAt(s, i, Size(t), at, IndexOf(f, y));
    FlattenIds(t, p, at);
  }

  /** Rows of a forest only name the given root parent or ids of the forest as parents. */
  lemma ParentsInside(f: Forest, root: Option<BlockId>, k: nat)
    requires Distinct(f) && k < Size(f) && (root.Some? ==> root.value !in Ids(f))
    ensures var p := Flatten(f, root)[k].parent; p == root || (p.Some? && p.value in Ids(f))
  {
    FlattenIds(f, root, k);
    var x := Flatten(f, root)[k].id;
    Located(f, root, x);
    RootsHaveNoParent(f, root, x);
  }

  /** `i` is where the nearest row before `x` sharing its parent stands. */
  ghost predicate NearestSibling(s: seq<Block>, i: nat, p: Option<BlockId>, prev: Option<BlockId>, f: Forest)
    requires i <= |s| == Size(f)
  {
    match prev
    case None => forall k :: 0 <= k < i ==> s[k].parent != p
    case Some(a) =>
      && a in Ids(f) && IndexOf(f, a) < i && s[IndexOf(f, a)].parent == p
      && forall k :: IndexOf(f, a) < k < i ==> s[k].parent != p
  }

  /** The previous sibling is the nearest earlier row with the same parent. */
  lemma {:induction false} PrevIsNearest(f: Forest, root: Option<BlockId>, x: BlockId)
    requires Distinct(f) && x in Ids(f) && (root.Some? ==> root.value !in Ids(f))
    ensures NearestSibling(Flatten(f, root), IndexOf(f, x), ParentOf(f, root, x), PrevOf(f, x), f)
  {
    if f.id == x {
    } else if x in Ids(f.kids) {
      PrevIsNearest(f.kids, Some(f.id), x);
      NearestAmongKids(f, root, x);
    } else {
      PrevIsNearest(f.rest, root, x);
      NearestAmongRest(f, root, x);
    }
  }

  lemma {:induction false} NearestAmongKids(f: Forest, root: Option<BlockId>, x: BlockId)
    requires Distinct(f) && f.Node? && x in Ids(f.kids) && (root.Some? ==> root.value !in Ids(f))
    requires NearestSibling(Flatten(f.kids, Some(f.id)), IndexOf(f.kids, x), ParentOf(f.kids, Some(f.id), x), PrevOf(f.kids, x), f.kids)
    ensures NearestSibling(Flatten(f, root), IndexOf(f, x), ParentOf(f, root, x), PrevOf(f, x), f)
  {
    var s, k := Flatten(f, root), Flatten(f.kids, Some(f.id));
    RootsHaveNoParent(f.kids, Some(f.id), x);
    assert forall j :: 1 <= j < 1 + |k| ==> s[j] == k[j - 1];
    assert s[0].parent == root;
  }

  lemma {:induction false} NearestAmongRest(f: Forest, root: Option<BlockId>, x: BlockId)
    requires Distinct(f) && f.Node? && x in Ids(f.rest) && (root.Some? ==> root.value !in Ids(f))
    requires NearestSibling(Flatten(f.rest, root), IndexOf(f.rest, x), ParentOf(f.rest, root, x), PrevOf(f.rest, x), f.rest)
    ensures NearestSibling(Flatten(f, root), IndexOf(f, x), ParentOf(f, root, x), PrevOf(f, x), f)
  {
    var s, k, r := Flatten(f, root), Flatten(f.kids, Some(f.id)), Flatten(f.rest, root);
    var o, p := 1 + |k|, ParentOf(f, root, x);
    RootsHaveNoParent(f.rest, root, x);
    assert forall j :: o <= j < |s| ==> s[j] == r[j - o];
    forall j | 1 <= j < o ensures s[j].parent != p {
      assert s[j] == k[j - 1];
      ParentsInside(f.kids, Some(f.id), j - 1);
    }
    assert s[0].parent == root;
    if PrevOf(f.rest, x) == None && f.rest.id != x {
      assert p != root by {
        if IsRoot(f.rest, x) {
          PrevIsSibling(f.rest, x);
        }
      }
    }
  }

  /** Inserting one new block splices in one row. */
  lemma LeafIsSplice(f: Forest, parent: Option<BlockId>, after: Option<BlockId>, x: BlockId, body: Body)
    requires Distinct(f) && IsPlace(f, parent, after)
    ensures after.Some? ==> after.value in Ids(f)
    ensures PlaceIndex(f, parent, after) <= Size(f)
    ensures Flatten(Insert(f, parent, after, Node(x, body, Nil, Nil)), None)
         == Splice(Flatten(f, None), PlaceIndex(f, parent, after), 0, [Block(x, parent, body)])
  {
    LeafRow(x, body, parent);
    InsertRows(f, parent, after, Node(x, body, Nil, Nil), [Block(x, parent, body)]);
  }

  lemma LeafRow(x: BlockId, body: Body, parent: Option<BlockId>)
    ensures Flatten(Node(x, body, Nil, Nil), parent) == [Block(x, parent, body)]
  {
  }

  lemma InsertRows(f: Forest, parent: Option<BlockId>, after: Option<BlockId>, g: Forest, rows: seq<Block>)
    requires Distinct(f) && IsPlace(f, parent, after) && rows == Flatten(g, parent)
    ensures after.Some? ==> after.value in Ids(f)
    ensures PlaceIndex(f, parent, after) <= Size(f)
    ensures Flatten(Insert(f, parent, after, g), None) == Splice(Flatten(f, None), PlaceIndex(f, parent, after), 0, rows)
  {
    InsertIsSplice(f, None, parent, after, g);
  }

  /** Putting the subtree at `x` back at (q, a) splices its own run of rows into
      what is left, with only the first row's parent changed. */
  lemma PasteSubtree(f: Forest, x: BlockId, run: seq<Block>, q: Option<BlockId>, a: Option<BlockId>)
    requires Distinct(f) && x in Ids(f) && Distinct(Remove(f, x)) && IsPlace(Remove(f, x), q, a)
    requires |run| > 0 && run == Flatten(Subtree(f, x), ParentOf(f, None, x))
    ensures a.Some? ==> a.value in Ids(Remove(f, x))
    ensures PlaceIndex(Remove(f, x), q, a) <= Size(Remove(f, x))
    ensures Flatten(Insert(Remove(f, x), q, a, Subtree(f, x)), None)
         == Splice(Flatten(Remove(f, x), None), PlaceIndex(Remove(f, x), q, a), 0, [run[0].(parent := q)] + run[1..])
  {
    InsertIsSplice(Remove(f, x), None, q, a, Subtree(f, x));
    RerootFlattens(Subtree(f, x), ParentOf(f, None, x), q);
  }

  /** Giving a one-root forest another parent changes only its first row. */
  lemma RerootFlattens(t: Forest, p: Option<BlockId>, q: Option<BlockId>)
    requires t.Node? && t.rest == Nil
    ensures Flatten(t, q) == [Flatten(t, p)[0].(parent := q)] + Flatten(t, p)[1..]
  {
    var k := Flatten(t.kids, Some(t.id));
    assert Flatten(t, p) == [Block(t.id, p, t.body)] + k + [];
    assert Flatten(t, q) == [Block(t.id, q, t.body)] + k + [];
  }

  /** The rows determine the forest: parent ids and order are all there is to the tree. */
  lemma {:induction false} RowsDetermineForest(f: Forest, g: Forest, root: Option<BlockId>)
    requires Distinct(f) && Distinct(g) && Flatten(f, root) == Flatten(g, root)
    requires root.Some? ==> root.value !in Ids(f) && root.value !in Ids(g)
    ensures f == g
  {
    if f == Nil || g == Nil {
      assert Size(f) == Size(g);
    } else {
      var s := Flatten(f, root);
      assert s[0] == Block(f.id, root, f.body) == Block(g.id, root, g.body);
      KidsNotShorter(f, g, root);
      KidsNotShorter(g, f, root);
      assert Flatten(f.kids, Some(f.id)) == s[1..1 + Size(f.kids)] == Flatten(g.kids, Some(f.id));
      assert Flatten(f.rest, root) == s[1 + Size(f.kids)..] == Flatten(g.rest, root);
      RowsDetermineForest(f.kids, g.kids, Some(f.id));
      RowsDetermineForest(f.rest, g.rest, root);
    }
  }

  lemma KidsNotShorter(f: Forest, g: Forest, root: Option<BlockId>)
    requires f.Node? && g.Node? && f.id == g.id && Distinct(f) && Distinct(g)
    requires Flatten(f, root) == Flatten(g, root)
    requires root.Some? ==> root.value !in Ids(f) && root.value !in Ids(g)
    ensures Size(f.kids) >= Size(g.kids)
  {
    var s, k := Flatten(f, root), Size(f.kids);
    if k < Size(g.kids) {
      assert Size(f) == Size(g) && f.rest.Node?;
      assert s[1 + k] == Flatten(f.rest, root)[0];
      assert s[1 + k] == Flatten(g.kids, Some(g.id))[k];
      ParentsInside(g.kids, Some(g.id), k);
    }
  }
}
