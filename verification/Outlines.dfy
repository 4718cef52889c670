// Depth-first rows, read one at a time.

module Outlines {
  // Every new row hangs from the last row or from one of its ancestors: the order
  // the paste compiler emits, and the forest it stands for.

  import opened Options
  import opened Blocks
  import opened Forests
  import opened ForestAlgebra
  import opened Operations
  import opened Positions

  /** The parent chain of `x`, read in rows whose parents come earlier, meets `anc`. */
  function Descends(rows: seq<Block>, x: BlockId, anc: BlockId): bool {
    if rows == [] then false
    else
      var n := |rows| - 1;
      if rows[n].id == x then
        rows[n].parent.Some? && (rows[n].parent.value == anc || Descends(rows[..n], rows[n].parent.value, anc))
      else Descends(rows[..n], x, anc)
  }

  /** `q` is the last row or an ancestor of it. */
  predicate OnSpine(rows: seq<Block>, q: BlockId) {
    rows != [] && (rows[|rows| - 1].id == q || Descends(rows, rows[|rows| - 1].id, q))
  }

  predicate HasId(rows: seq<Block>, x: BlockId) {
    exists k :: 0 <= k < |rows| && rows[k].id == x
  }

  /** Fresh ids, and every parent on the spine of what came before. */
  ghost predicate DepthFirst(rows: seq<Block>) {
    rows != [] ==>
      var n := |rows| - 1;
      && DepthFirst(rows[..n])
      && !HasId(rows[..n], rows[n].id)
      && (rows[n].parent.Some? ==> OnSpine(rows[..n], rows[n].parent.value))
  }

  /** The last row so far under `parent`. */
  function LastChild(rows: seq<Block>, parent: Option<BlockId>): Option<BlockId> {
    if rows == [] then None
    else
      var n := |rows| - 1;
      if rows[n].parent == parent then Some(rows[n].id) else LastChild(rows[..n], parent)
  }

  ghost predicate IsLastChildAt(rows: seq<Block>, parent: Option<BlockId>, a: BlockId, j: int) {
    && 0 <= j < |rows| && rows[j].id == a && rows[j].parent == parent
    && (forall k :: j < k < |rows| ==> rows[k].parent != parent)
  }

  lemma {:induction false} LastChildIsLast(rows: seq<Block>, parent: Option<BlockId>)
    ensures LastChild(rows, parent) == None ==> forall k :: 0 <= k < |rows| ==> rows[k].parent != parent
    ensures LastChild(rows, parent).Some? ==> exists j :: IsLastChildAt(rows, parent, LastChild(rows, parent).value, j)
  {
    if rows != [] {
      var n := |rows| - 1;
      LastChildIsLast(rows[..n], parent);
      assert forall k :: 0 <= k < n ==> rows[..n][k] == rows[k];
      if rows[n].parent == parent {
        assert LastChild(rows, parent) == Some(rows[n].id);
        assert IsLastChildAt(rows, parent, rows[n].id, n);
      } else if LastChild(rows[..n], parent).Some? {
        var a := LastChild(rows[..n], parent).value;
        var j :| IsLastChildAt(rows[..n], parent, a, j);
        assert IsLastChildAt(rows, parent, a, j);
      }
    }
  }

  // ----- The same rows as a forest

  /** In a flattened forest the chain walk decides descent. */
  lemma {:induction false} DescendsIsBelow(rows: seq<Block>, f: Forest, n: nat, x: BlockId, anc: BlockId)
    requires Reads(rows, f) && n <= |rows| && anc in Ids(f)
    ensures x in Ids(f) && IndexOf(f, x) < n ==> (Descends(rows[..n], x, anc) <==> x in Below(f, anc))
    ensures !(x in Ids(f) && IndexOf(f, x) < n) ==> !Descends(rows[..n], x, anc)
  {
    if n > 0 {
      RowAt(rows, f, n - 1);
      var b := rows[n - 1];
      assert rows[..n][..n - 1] == rows[..n - 1];
      if b.id == x {
        ParentLinksClosed(f, None, anc, x);
        ParentIsEarlier(f, None, x);
        RootsHaveNoParent(f, None, x);
        if b.parent.Some? {
          DescendsIsBelow(rows, f, n - 1, b.parent.value, anc);
        }
      } else {
        DescendsIsBelow(rows, f, n - 1, x, anc);
        if x in Ids(f) && IndexOf(f, x) == n - 1 {
          Located(f, None, x);
        }
      }
    }
  }

  /** A spine block's subtree runs to the end of the rows. */
  lemma SpineRunsToEnd(rows: seq<Block>, f: Forest, q: BlockId)
    requires Reads(rows, f) && OnSpine(rows, q)
    ensures q in Ids(f) && IndexOf(f, q) + Size(Subtree(f, q)) == |rows|
    ensures rows[|rows| - 1].id in Ids(Subtree(f, q))
  {
    var n := |rows| - 1;
    var last := rows[n].id;
    RowAt(rows, f, n);
    if last != q {
      DescendsNeedsRow(rows, last, q);
      var k :| 0 <= k < |rows| && rows[k].parent == Some(q);
      RowAt(rows, f, k);
      RootsHaveNoParent(f, None, rows[k].id);
      assert rows[..|rows|] == rows;
      DescendsIsBelow(rows, f, |rows|, last, q);
    }
    SubtreeIds(f, q);
    SubtreeIsRun(f, None, q);
    SubtreePositions(f, q, last);
  }

  lemma {:induction false} DescendsNeedsRow(rows: seq<Block>, x: BlockId, anc: BlockId)
    requires Descends(rows, x, anc)
    ensures exists k :: 0 <= k < |rows| && rows[k].parent == Some(anc)
  {
    var n := |rows| - 1;
    if rows[n].id == x {
      if rows[n].parent.value != anc {
        DescendsNeedsRow(rows[..n], rows[n].parent.value, anc);
        var k :| 0 <= k < n && rows[..n][k].parent == Some(anc);
        assert rows[k].parent == Some(anc);
      }
    } else {
      DescendsNeedsRow(rows[..n], x, anc);
      var k :| 0 <= k < n && rows[..n][k].parent == Some(anc);
      assert rows[k].parent == Some(anc);
    }
  }

  /** The last child of a spine block (or the last top-level block) runs to the end of the rows. */
  lemma LastChildRunsToEnd(rows: seq<Block>, f: Forest, parent: Option<BlockId>)
    requires Reads(rows, f) && LastChild(rows, parent).Some?
    requires parent.Some? ==> OnSpine(rows, parent.value)
    ensures var a := LastChild(rows, parent).value;
      a in Ids(f) && ParentOf(f, None, a) == parent && IndexOf(f, a) + Size(Subtree(f, a)) == |rows|
  {
    var a := LastChild(rows, parent).value;
    LastChildIsLast(rows, parent);
    var j :| IsLastChildAt(rows, parent, a, j);
    RowAt(rows, f, j);
    SubtreeIsRun(f, None, a);
    var e := j + Size(Subtree(f, a));
    assert Size(Subtree(f, a)) >= 1;
    if e < |rows| {
      RowAt(rows, f, e);
      NextRowIsSibling(rows, f, a, rows[e].id);
    }
  }

  /** The row right after the subtree of a child of the spine is another child of the same parent. */
  lemma NextRowIsSibling(rows: seq<Block>, f: Forest, a: BlockId, y: BlockId)
    requires Reads(rows, f) && a in Ids(f) && y in Ids(f)
    requires IndexOf(f, y) == IndexOf(f, a) + Size(Subtree(f, a))
    requires ParentOf(f, None, a).Some? ==> OnSpine(rows, ParentOf(f, None, a).value)
    ensures ParentOf(f, None, y) == ParentOf(f, None, a)
  {
    NextRowParent(rows, f, a, y);
    if ParentOf(f, None, a).Some? {
      var q := ParentOf(f, None, a).value;
      SpineRunsToEnd(rows, f, q);
      ParentIsEarlier(f, None, a);
      Located(f, None, y);
      SubtreePositions(f, q, y);
      ParentLinksClosed(f, None, q, y);
      var r := ParentOf(f, None, y).value;
      if r != q {
        SubtreePositions(f, q, r);
        SubtreePositions(f, r, q);
      }
    }
  }

  /** The row right after `a`'s subtree hangs from the top or from an ancestor of `a`. */
  lemma NextRowParent(rows: seq<Block>, f: Forest, a: BlockId, y: BlockId)
    requires Reads(rows, f) && a in Ids(f) && y in Ids(f)
    requires IndexOf(f, y) == IndexOf(f, a) + Size(Subtree(f, a))
    ensures var r := ParentOf(f, None, y);
      r == None || (r.value in Ids(f) && a in Below(f, r.value)
                    && ParentOf(f, None, a).Some? && ParentOf(f, None, a).value in Below(f, r.value) + {r.value})
  {
    var r := ParentOf(f, None, y);
    RootsHaveNoParent(f, None, y);
    if r.Some? {
      SubtreePositions(f, a, y);
      ParentLinksClosed(f, None, a, y);
      SubtreeIds(f, a);
      ParentIsEarlier(f, None, y);
      SubtreePositions(f, a, r.value);
      assert IndexOf(f, r.value) < IndexOf(f, a);
      ParentLinksClosed(f, None, r.value, y);
      SubtreePositions(f, r.value, y);
      SubtreePositions(f, r.value, a);
      ParentLinksClosed(f, None, r.value, a);
    }
  }

  // ----- Depth-first rows are exactly the flattened forests

  lemma {:induction false} DepthFirstPrefix(rows: seq<Block>, n: nat)
    requires DepthFirst(rows) && n <= |rows|
    ensures DepthFirst(rows[..n])
  {
    if n == |rows| {
      assert rows[..n] == rows;
    } else {
      var m := |rows| - 1;
      DepthFirstPrefix(rows[..m], n);
      assert rows[..m][..n] == rows[..n];
    }
  }

  /** A spine block with no children yet is the last row. */
  lemma ChildlessSpineIsLast(rows: seq<Block>, f: Forest, q: BlockId)
    requires Reads(rows, f) && OnSpine(rows, q) && LastChild(rows, Some(q)) == None
    ensures q in Ids(f) && IndexOf(f, q) + 1 == |rows|
  {
    LastChildIsLast(rows, Some(q));
    RowAt(rows, f, |rows| - 1);
    if rows[|rows| - 1].id != q {
      DescendsNeedsRow(rows, rows[|rows| - 1].id, q);
    }
  }

  lemma NextRowIsNew(rows: seq<Block>, n: nat, f: Forest)
    requires DepthFirst(rows) && n < |rows| && Reads(rows[..n], f)
    ensures rows[n].id !in Ids(f)
  {
    var x := rows[n].id;
    DepthFirstPrefix(rows, n + 1);
    assert rows[..n + 1][..n] == rows[..n];
    if x in Ids(f) {
      Located(f, None, x);
    }
  }

  lemma NextRowPlace(rows: seq<Block>, n: nat, f: Forest)
    requires DepthFirst(rows) && n < |rows| && Reads(rows[..n], f)
    ensures rows[n].id !in Ids(f)
    ensures var parent, after := rows[n].parent, LastChild(rows[..n], rows[n].parent);
      && IsPlace(f, parent, after) && (after.Some? ==> after.value in Ids(f))
      && PlaceIndex(f, parent, after) == n
  {
    var before, b := rows[..n], rows[n];
    var after := LastChild(before, b.parent);
    NextRowIsNew(rows, n, f);
    DepthFirstPrefix(rows, n + 1);
    assert rows[..n + 1][..n] == before;
    if b.parent.Some? {
      SpineRunsToEnd(before, f, b.parent.value);
    }
    if after.Some? {
      LastChildRunsToEnd(before, f, b.parent);
    } else if b.parent.Some? {
      ChildlessSpineIsLast(before, f, b.parent.value);
    } else {
      FirstRowIsTop(rows, n);
    }
    PlaceErrorIsPlace(f, b.parent, after);
  }

  lemma RowAppended(rows: seq<Block>, n: nat, at: nat)
    requires at == n < |rows|
    ensures rows[..n + 1] == Splice(rows[..n], at, 0, [rows[n]])
  {
  }

  /** The next row of a depth-first list is an insert after its last sibling,
      and that place is the end of the slice. */
  lemma NextRowInserts(rows: seq<Block>, n: nat, f: Forest)
    requires DepthFirst(rows) && n < |rows| && Reads(rows[..n], f)
    ensures rows[n].id !in Ids(f)
    ensures var parent, after := rows[n].parent, LastChild(rows[..n], rows[n].parent);
      && IsPlace(f, parent, after) && (after.Some? ==> after.value in Ids(f))
      && PlaceIndex(f, parent, after) == n
      && Reads(rows[..n + 1], Insert(f, parent, after, Node(rows[n].id, rows[n].body, Nil, Nil)))
  {
    var b, after := rows[n], LastChild(rows[..n], rows[n].parent);
    NextRowPlace(rows, n, f);
    LeafIsSplice(f, b.parent, after, b.id, b.body);
    LeafDistinct(b.id, b.body);
    InsertIds(f, b.parent, after, Node(b.id, b.body, Nil, Nil));
    RowAppended(rows, n, PlaceIndex(f, b.parent, after));
  }

  lemma LeafDistinct(x: BlockId, body: Body)
    ensures Ids(Node(x, body, Nil, Nil)) == {x} && Distinct(Node(x, body, Nil, Nil))
  {
  }

  lemma {:induction false} FirstRowIsTop(rows: seq<Block>, n: nat)
    requires DepthFirst(rows) && n <= |rows| && LastChild(rows[..n], None) == None
    ensures n == 0
  {
    LastChildIsLast(rows[..n], None);
    if n > 0 {
      DepthFirstPrefix(rows, 1);
    }
  }

  /** Every depth-first list of rows is the flattening of a forest. */
  lemma {:induction false} DepthFirstIsForest(rows: seq<Block>) returns (f: Forest)
    requires DepthFirst(rows)
    ensures Reads(rows, f)
  {
    if rows == [] {
      return Nil;
    }
    var n := |rows| - 1;
    var g := DepthFirstIsForest(rows[..n]);
    NextRowInserts(rows, n, g);
    var b := rows[n];
    f := Insert(g, b.parent, LastChild(rows[..n], b.parent), Node(b.id, b.body, Nil, Nil));
    assert rows[..n + 1] == rows;
  }

  /** And every flattened forest is depth-first. */
  lemma {:induction false} ForestIsDepthFirst(rows: seq<Block>, f: Forest, n: nat)
    requires Reads(rows, f) && n <= |rows|
    ensures DepthFirst(rows[..n])
  {
    if n > 0 {
      var m := n - 1;
      ForestIsDepthFirst(rows, f, m);
      assert rows[..n][..m] == rows[..m];
      RowAt(rows, f, m);
      var y := rows[m].id;
      RootsHaveNoParent(f, None, y);
      forall k | 0 <= k < m ensures rows[k].id != y {
        RowAt(rows, f, k);
      }
      if rows[m].parent.Some? {
        var q := rows[m].parent.value;
        ParentIsEarlier(f, None, y);
        ParentLinksClosed(f, None, q, y);
        SubtreePositions(f, q, y);
        RowAt(rows, f, m - 1);
        SubtreePositions(f, q, rows[m - 1].id);
        Located(f, None, q);
        DescendsIsBelow(rows, f, m, rows[m - 1].id, q);
        assert rows[..m][m - 1] == rows[m - 1];
      }
    }
  }
}
