// Laws of the forest operations: what insertion, removal and relabelling keep,
// how each undoes another, and what that means for the rule on which blocks may
// stand under which.

module ForestAlgebra {
  import opened Options
  import opened Blocks
  import opened Forests

  // ----- Insertion

  lemma {:induction false} InsertRootIds(f: Forest, after: Option<BlockId>, g: Forest)
    requires after.Some? ==> IsRoot(f, after.value)
    ensures Ids(InsertRoot(f, after, g)) == Ids(f) + Ids(g)
    ensures Distinct(f) && Distinct(g) && Ids(f) !! Ids(g) ==> Distinct(InsertRoot(f, after, g))
  {
    if after == None {
      AppendIds(g, f);
    } else if f.id == after.value {
      AppendIds(g, f.rest);
    } else {
      InsertRootIds(f.rest, after, g);
    }
  }

  lemma {:induction false} AppendIds(f: Forest, g: Forest)
    ensures Ids(Append(f, g)) == Ids(f) + Ids(g)
    ensures Distinct(f) && Distinct(g) && Ids(f) !! Ids(g) ==> Distinct(Append(f, g))
  {
    if f.Node? {
      AppendIds(f.rest, g);
    }
  }

  lemma {:induction false} InsertIds(f: Forest, parent: Option<BlockId>, after: Option<BlockId>, g: Forest)
    requires Distinct(f) && IsPlace(f, parent, after)
    ensures Ids(Insert(f, parent, after, g)) == Ids(f) + Ids(g)
    ensures Distinct(g) && Ids(f) !! Ids(g) ==> Distinct(Insert(f, parent, after, g))
  {
    if parent == None {
      InsertRootIds(f, after, g);
    } else if parent.value == f.id {
      InsertRootIds(f.kids, after, g);
    } else if parent.value in Ids(f.kids) {
      InsertIds(f.kids, parent, after, g);
      InsertAbsent(f.rest, parent, after, g);
    } else {
      InsertIds(f.rest, parent, after, g);
      InsertAbsent(f.kids, parent, after, g);
    }
  }

  /** What `Insert` promises about the tree `t` it put in. */
  ghost predicate Placed(f: Forest, g: Forest, root: Option<BlockId>, parent: Option<BlockId>, after: Option<BlockId>, t: Forest)
    requires t.Node?
  {
    && t.id in Ids(g)
    && Subtree(g, t.id) == t
    && ParentOf(g, root, t.id) == parent
    && PrevOf(g, t.id) == after
    && Remove(g, t.id) == f
  }

  lemma {:induction false} InsertRootPlaces(f: Forest, root: Option<BlockId>, after: Option<BlockId>, t: Forest)
    requires Distinct(f) && t.Node? && t.rest == Nil && Ids(f) !! Ids(t)
    requires after.Some? ==> IsRoot(f, after.value)
    ensures Placed(f, InsertRoot(f, after, t), root, root, after, t)
  {
    var g := InsertRoot(f, after, t);
    assert t.id in Ids(t);
    if after == None {
      assert g == t.(rest := f) by { assert Append(Nil, f) == f; }
    } else {
      RemoveAbsent(f.kids, t.id);
      if f.id == after.value {
        assert g == f.(rest := t.(rest := f.rest)) by { assert Append(Nil, f.rest) == f.rest; }
      } else {
        InsertRootPlaces(f.rest, root, after, t);
        InsertRootIds(f.rest, after, t);
      }
    }
  }

  /** An inserted tree sits exactly where it was asked for, and removing it
      gives the old forest back. */
  lemma {:induction false} InsertPlaces(f: Forest, root: Option<BlockId>, parent: Option<BlockId>, after: Option<BlockId>, t: Forest)
    requires Distinct(f) && t.Node? && t.rest == Nil && Ids(f) !! Ids(t)
    requires IsPlace(f, parent, after)
    ensures Placed(f, Insert(f, parent, after, t), root, if parent == None then root else parent, after, t)
  {
    assert t.id in Ids(t);
    if parent == None {
      InsertRootPlaces(f, root, after, t);
    } else if parent.value == f.id {
      InsertRootPlaces(f.kids, parent, after, t);
      RemoveAbsent(f.rest, t.id);
    } else if parent.value in Ids(f.kids) {
      InsertPlaces(f.kids, Some(f.id), parent, after, t);
      InsertAbsent(f.rest, parent, after, t);
      RemoveAbsent(f.rest, t.id);
    } else {
      InsertPlaces(f.rest, root, parent, after, t);
      InsertAbsent(f.kids, parent, after, t);
      RemoveAbsent(f.kids, t.id);
      assert f.rest.Node?;
      FirstAfterInsert(f.rest, parent, after, t);
    }
  }

  lemma {:induction false} FirstAfterInsert(f: Forest, parent: Option<BlockId>, after: Option<BlockId>, t: Forest)
    requires f.Node? && parent.Some?
    ensures Insert(f, parent, after, t).Node? && Insert(f, parent, after, t).id == f.id
  {
  }

  lemma {:induction false} InsertKeepsBodies(f: Forest, parent: Option<BlockId>, after: Option<BlockId>, g: Forest, q: BlockId)
    requires Distinct(f) && IsPlace(f, parent, after) && q in Ids(f) && q !in Ids(g)
    ensures q in Ids(Insert(f, parent, after, g))
    ensures BodyOf(Insert(f, parent, after, g), q) == BodyOf(f, q)
  {
    InsertIds(f, parent, after, g);
    if parent == None {
      InsertRootKeepsBodies(f, after, g, q);
    } else if parent.value == f.id {
      InsertRootIds(f.kids, after, g);
      if q in Ids(f.kids) {
        InsertRootKeepsBodies(f.kids, after, g, q);
      }
    } else if parent.value in Ids(f.kids) {
      InsertIds(f.kids, parent, after, g);
      InsertAbsent(f.rest, parent, after, g);
      if q in Ids(f.kids) {
        InsertKeepsBodies(f.kids, parent, after, g, q);
      }
    } else {
      InsertAbsent(f.kids, parent, after, g);
      if q in Ids(f.rest) {
        InsertKeepsBodies(f.rest, parent, after, g, q);
      }
    }
  }

  lemma {:induction false} InsertRootKeepsBodies(f: Forest, after: Option<BlockId>, g: Forest, q: BlockId)
    requires Distinct(f) && q in Ids(f) && q !in Ids(g)
    requires after.Some? ==> IsRoot(f, after.value)
    ensures q in Ids(InsertRoot(f, after, g))
    ensures BodyOf(InsertRoot(f, after, g), q) == BodyOf(f, q)
  {
    InsertRootIds(f, after, g);
    if after == None {
      AppendKeepsBodies(g, f, q);
    } else if f.id == after.value {
      if q in Ids(f.rest) {
        AppendKeepsBodies(g, f.rest, q);
      }
    } else if q in Ids(f.rest) {
      InsertRootKeepsBodies(f.rest, after, g, q);
    }
  }

  lemma {:induction false} AppendKeepsBodies(f: Forest, g: Forest, q: BlockId)
    requires q in Ids(g) && q !in Ids(f)
    ensures q in Ids(Append(f, g)) && BodyOf(Append(f, g), q) == BodyOf(g, q)
  {
    AppendIds(f, g);
    if f.Node? {
      AppendKeepsBodies(f.rest, g, q);
    }
  }

  // ----- Removal

  lemma {:induction false} RemoveIds(f: Forest, x: BlockId)
    requires Distinct(f) && x in Ids(f)
    ensures Ids(Remove(f, x)) == Ids(f) - Ids(Subtree(f, x))
    ensures Distinct(Remove(f, x))
  {
    SubtreeIds(f, x);
    if f.id == x {
      assert Ids(Nil) == {};
    } else if x in Ids(f.kids) {
      RemoveIds(f.kids, x);
      RemoveAbsent(f.rest, x);
      SubtreeIds(f.kids, x);
    } else {
      RemoveIds(f.rest, x);
      RemoveAbsent(f.kids, x);
      SubtreeIds(f.rest, x);
    }
  }

  lemma {:induction false} RemoveKeepsBodies(f: Forest, x: BlockId, q: BlockId)
    requires Distinct(f) && x in Ids(f) && q in Ids(f) && q !in Ids(Subtree(f, x))
    ensures q in Ids(Remove(f, x)) && BodyOf(Remove(f, x), q) == BodyOf(f, q)
  {
    RemoveIds(f, x);
    SubtreeIds(f, x);
    if f.id == x {
    } else if x in Ids(f.kids) {
      RemoveAbsent(f.rest, x);
      if q in Ids(f.kids) {
        RemoveKeepsBodies(f.kids, x, q);
      } else if q != f.id {
        RemoveIds(f.kids, x);
      }
    } else {
      RemoveAbsent(f.kids, x);
      if q in Ids(f.rest) {
        RemoveKeepsBodies(f.rest, x, q);
      }
    }
  }

  lemma {:induction false} RemovedRootGoesBack(f: Forest, x: BlockId)
    requires Distinct(f) && IsRoot(f, x)
    ensures x in Ids(f)
    ensures PrevOf(f, x).Some? ==> IsRoot(Remove(f, x), PrevOf(f, x).value)
    ensures InsertRoot(Remove(f, x), PrevOf(f, x), Subtree(f, x)) == f
  {
    RootInIds(f, x);
    if f.id == x {
      assert Append(Subtree(f, x), f.rest) == f by { assert Append(Nil, f.rest) == f.rest; }
    } else {
      RootInIds(f.rest, x);
      RemoveAbsent(f.kids, x);
      RemovedRootGoesBack(f.rest, x);
      if f.rest.id == x {
        assert Append(Subtree(f, x), f.rest.rest) == f.rest by { assert Append(Nil, f.rest.rest) == f.rest.rest; }
      } else {
        PrevIsSibling(f.rest, x);
      }
    }
  }

  lemma {:induction false} PrevIsSibling(f: Forest, x: BlockId)
    requires Distinct(f) && IsRoot(f, x) && f.id != x
    ensures x in Ids(f) && PrevOf(f, x).Some? && PrevOf(f, x).value in Ids(f)
  {
    RootInIds(f, x);
    RootInIds(f.rest, x);
    if f.rest.id != x {
      PrevIsSibling(f.rest, x);
    }
  }

  /** A removed subtree goes back exactly, under its recorded parent and after
      its recorded sibling. */
  lemma {:induction false} RemovedGoesBack(f: Forest, root: Option<BlockId>, x: BlockId)
    requires Distinct(f) && x in Ids(f) && (root.Some? ==> root.value !in Ids(f))
    ensures var parent := if IsRoot(f, x) then None else ParentOf(f, root, x);
      && IsPlace(Remove(f, x), parent, PrevOf(f, x))
      && Insert(Remove(f, x), parent, PrevOf(f, x), Subtree(f, x)) == f
  {
    RootsHaveNoParent(f, root, x);
    RemoveIds(f, x);
    if IsRoot(f, x) {
      RemovedRootGoesBack(f, x);
    } else if x in Ids(f.kids) {
      RemoveAbsent(f.rest, x);
      RootsHaveNoParent(f.kids, Some(f.id), x);
      RemovedGoesBack(f.kids, Some(f.id), x);
      if IsRoot(f.kids, x) {
        RemovedRootGoesBack(f.kids, x);
      } else {
        RemoveIds(f.kids, x);
        InsertAbsent(f.rest, ParentOf(f, root, x), PrevOf(f, x), Subtree(f, x));
      }
    } else {
      RemoveAbsent(f.kids, x);
      RootsHaveNoParent(f.rest, root, x);
      RemovedGoesBack(f.rest, root, x);
      RemoveIds(f.rest, x);
      InsertAbsent(f.kids, ParentOf(f, root, x), PrevOf(f, x), Subtree(f, x));
    }
  }

  // ----- Relabelling

  ghost predicate Relabelled(f: Forest, g: Forest, root: Option<BlockId>, x: BlockId, body: Body)
    requires x in Ids(f)
  {
    && Ids(g) == Ids(f)
    && Distinct(g)
    && Subtree(g, x) == Node(x, body, Subtree(f, x).kids, Nil)
    && IndexOf(g, x) == IndexOf(f, x)
    && ParentOf(g, root, x) == ParentOf(f, root, x)
    && Relabel(g, x, BodyOf(f, x)) == f
  }

  lemma {:induction false} RelabelAbsent(f: Forest, x: BlockId, body: Body)
    requires x !in Ids(f)
    ensures Relabel(f, x, body) == f
  {
    if f.Node? {
      RelabelAbsent(f.kids, x, body);
      RelabelAbsent(f.rest, x, body);
    }
  }

  /** Relabelling changes one body and nothing else, and is undone by relabelling back. */
  lemma {:induction false} RelabelKeepsTree(f: Forest, root: Option<BlockId>, x: BlockId, body: Body)
    requires Distinct(f) && x in Ids(f)
    ensures Relabelled(f, Relabel(f, x, body), root, x, body)
  {
    if f.id == x {
    } else if x in Ids(f.kids) {
      RelabelKeepsTree(f.kids, Some(f.id), x, body);
      RelabelAbsent(f.rest, x, body);
      RelabelAbsent(f.rest, x, BodyOf(f, x));
    } else {
      RelabelKeepsTree(f.rest, root, x, body);
      RelabelAbsent(f.kids, x, body);
      RelabelAbsent(f.kids, x, BodyOf(f, x));
    }
  }

  lemma {:induction false} RelabelKeepsBodies(f: Forest, x: BlockId, body: Body, q: BlockId)
    requires Distinct(f) && x in Ids(f) && q in Ids(f) && q != x
    ensures q in Ids(Relabel(f, x, body)) && BodyOf(Relabel(f, x, body), q) == BodyOf(f, q)
  {
    RelabelKeepsTree(f, None, x, body);
    if f.id != x && x in Ids(f.kids) {
      RelabelAbsent(f.rest, x, body);
      RelabelKeepsTree(f.kids, None, x, body);
      if q in Ids(f.kids) {
        RelabelKeepsBodies(f.kids, x, body, q);
      }
    } else if f.id != x {
      RelabelAbsent(f.kids, x, body);
      RelabelKeepsTree(f.rest, None, x, body);
      if q in Ids(f.rest) {
        RelabelKeepsBodies(f.rest, x, body, q);
      }
    }
  }

  ghost predicate IsOverwrite(f: Forest, root: Option<BlockId>, x: BlockId, body: Body)
    requires x in Ids(f)
  {
    Flatten(Relabel(f, x, body), root)
    == Splice(Flatten(f, root), IndexOf(f, x), 1, [Block(x, ParentOf(f, root, x), body)])
  }

  /** On the slice, relabelling overwrites one row. */
  lemma {:induction false} RelabelFlattens(f: Forest, root: Option<BlockId>, x: BlockId, body: Body)
    requires Distinct(f) && x in Ids(f)
    ensures IsOverwrite(f, root, x, body)
  {
    if f.id == x {
      var k, r := Flatten(f.kids, Some(x)), Flatten(f.rest, root);
      assert Splice([Block(x, root, f.body)] + k + r, 0, 1, [Block(x, root, body)]) == [Block(x, root, body)] + k + r;
    } else if x in Ids(f.kids) {
      RelabelFlattens(f.kids, Some(f.id), x, body);
      RelabelKid(f, root, x, body);
    } else {
      RelabelFlattens(f.rest, root, x, body);
      RelabelAmongRest(f, root, x, body);
    }
  }

  lemma {:induction false} RelabelKid(f: Forest, root: Option<BlockId>, x: BlockId, body: Body)
    requires Distinct(f) && f.Node? && x in Ids(f.kids) && IsOverwrite(f.kids, Some(f.id), x, body)
    ensures IsOverwrite(f, root, x, body)
  {
    var head, k, r := [Block(f.id, root, f.body)], Flatten(f.kids, Some(f.id)), Flatten(f.rest, root);
    RelabelAbsent(f.rest, x, body);
    SpliceMiddle(head, k, r, IndexOf(f, x), IndexOf(f.kids, x), 1, [Block(x, ParentOf(f, root, x), body)]);
  }

  lemma {:induction false} RelabelAmongRest(f: Forest, root: Option<BlockId>, x: BlockId, body: Body)
    requires Distinct(f) && f.Node? && x in Ids(f.rest) && IsOverwrite(f.rest, root, x, body)
    ensures IsOverwrite(f, root, x, body)
  {
    var head, k, r := [Block(f.id, root, f.body)], Flatten(f.kids, Some(f.id)), Flatten(f.rest, root);
    RelabelAbsent(f.kids, x, body);
    SpliceMiddle(head + k, r, [], IndexOf(f, x), IndexOf(f.rest, x), 1, [Block(x, ParentOf(f, root, x), body)]);
    assert Flatten(f, root) == head + k + r + [];
  }

  // ----- Parent-child rules

  lemma {:induction false} RootsAllowedAppend(rule: Rule, parent: BlockTag, f: Forest, g: Forest)
    ensures RootsAllowed(rule, parent, Append(f, g)) <==> RootsAllowed(rule, parent, f) && RootsAllowed(rule, parent, g)
    ensures Obeys(rule, Append(f, g)) <==> Obeys(rule, f) && Obeys(rule, g)
  {
    if f.Node? {
      RootsAllowedAppend(rule, parent, f.rest, g);
    }
  }

  lemma {:induction false} InsertRootObeys(rule: Rule, parent: BlockTag, f: Forest, after: Option<BlockId>, t: Forest)
    requires after.Some? ==> IsRoot(f, after.value)
    requires Obeys(rule, f) && Obeys(rule, t)
    ensures Obeys(rule, InsertRoot(f, after, t))
    ensures RootsAllowed(rule, parent, f) && RootsAllowed(rule, parent, t) ==> RootsAllowed(rule, parent, InsertRoot(f, after, t))
  {
    if after == None {
      RootsAllowedAppend(rule, parent, t, f);
    } else if f.id == after.value {
      RootsAllowedAppend(rule, parent, t, f.rest);
    } else {
      InsertRootObeys(rule, parent, f.rest, after, t);
    }
  }

  /** Inserting keeps a rule that the new parent-child pair follows. */
  lemma {:induction false} InsertObeys(rule: Rule, f: Forest, parent: Option<BlockId>, after: Option<BlockId>, t: Forest)
    requires Distinct(f) && IsPlace(f, parent, after) && t.Node? && t.rest == Nil
    requires Obeys(rule, f) && Obeys(rule, t)
    requires parent.Some? ==> rule.Allows(BodyOf(f, parent.value).kind.tag, t.body.kind.tag)
    ensures Obeys(rule, Insert(f, parent, after, t))
  {
    if parent == None {
      InsertRootObeys(rule, Paragraph, f, after, t);
    } else if parent.value == f.id {
      assert RootsAllowed(rule, f.body.kind.tag, Nil);
      InsertRootObeys(rule, f.body.kind.tag, f.kids, after, t);
    } else if parent.value in Ids(f.kids) {
      InsertObeys(rule, f.kids, parent, after, t);
      InsertAbsent(f.rest, parent, after, t);
      InsertKeepsRootTags(rule, f.body.kind.tag, f.kids, parent, after, t);
    } else {
      InsertObeys(rule, f.rest, parent, after, t);
      InsertAbsent(f.kids, parent, after, t);
    }
  }

  lemma {:induction false} InsertKeepsRootTags(rule: Rule, tag: BlockTag, f: Forest, parent: Option<BlockId>, after: Option<BlockId>, t: Forest)
    requires parent.Some? && RootsAllowed(rule, tag, f)
    ensures RootsAllowed(rule, tag, Insert(f, parent, after, t))
  {
    if f.Node? && parent.value != f.id {
      InsertKeepsRootTags(rule, tag, f.rest, parent, after, t);
    }
  }

  lemma {:induction false} RemoveObeys(rule: Rule, tag: BlockTag, f: Forest, x: BlockId)
    requires Obeys(rule, f)
    ensures Obeys(rule, Remove(f, x))
    ensures RootsAllowed(rule, tag, f) ==> RootsAllowed(rule, tag, Remove(f, x))
    decreases f
  {
    if f.Node? && f.id != x {
      RemoveObeys(rule, f.body.kind.tag, f.kids, x);
      RemoveObeys(rule, tag, f.rest, x);
    }
  }

  lemma {:induction false} SubtreeObeys(rule: Rule, f: Forest, x: BlockId)
    requires Obeys(rule, f) && x in Ids(f)
    ensures Obeys(rule, Subtree(f, x))
  {
    if f.id == x {
    } else if x in Ids(f.kids) {
      SubtreeObeys(rule, f.kids, x);
    } else {
      SubtreeObeys(rule, f.rest, x);
    }
  }

  lemma {:induction false} RootAllowed(rule: Rule, tag: BlockTag, f: Forest, x: BlockId)
    requires Distinct(f) && IsRoot(f, x) && RootsAllowed(rule, tag, f)
    ensures x in Ids(f) && rule.Allows(tag, BodyOf(f, x).kind.tag)
  {
    RootInIds(f, x);
    if f.id != x {
      RootInIds(f.rest, x);
      RootAllowed(rule, tag, f.rest, x);
    }
  }

  /** In an obedient forest every node is allowed under its own parent. */
  lemma {:induction false} ObeysAtNode(rule: Rule, f: Forest, root: Option<BlockId>, x: BlockId)
    requires Distinct(f) && Obeys(rule, f) && x in Ids(f) && (root.Some? ==> root.value !in Ids(f))
    ensures var q := ParentOf(f, root, x);
            q != root ==> q.Some? && q.value in Ids(f) && rule.Allows(BodyOf(f, q.value).kind.tag, BodyOf(f, x).kind.tag)
  {
    RootsHaveNoParent(f, root, x);
    if f.id == x {
    } else if x in Ids(f.kids) {
      RootsHaveNoParent(f.kids, Some(f.id), x);
      ObeysAtNode(rule, f.kids, Some(f.id), x);
      if IsRoot(f.kids, x) {
        RootAllowed(rule, f.body.kind.tag, f.kids, x);
      }
    } else {
      RootsHaveNoParent(f.rest, root, x);
      ObeysAtNode(rule, f.rest, root, x);
    }
  }

  /** Relabelling `x` keeps a rule exactly when the new tag suits its children,
      given that it suits its parent. */
  lemma {:induction false} RelabelObeys(rule: Rule, f: Forest, root: Option<BlockId>, x: BlockId, body: Body)
    requires Distinct(f) && Obeys(rule, f) && x in Ids(f) && (root.Some? ==> root.value !in Ids(f))
    requires var q := ParentOf(f, root, x);
      q != root ==> q.Some? && q.value in Ids(f) && rule.Allows(BodyOf(f, q.value).kind.tag, body.kind.tag)
    ensures Obeys(rule, Relabel(f, x, body)) <==> RootsAllowed(rule, body.kind.tag, Subtree(f, x).kids)
  {
    RootsHaveNoParent(f, root, x);
    if f.id == x {
    } else if x in Ids(f.kids) {
      RelabelAbsent(f.rest, x, body);
      RootsHaveNoParent(f.kids, Some(f.id), x);
      RelabelObeys(rule, f.kids, Some(f.id), x, body);
      RelabelKeepsRoots(rule, f.body.kind.tag, f.kids, x, body);
    } else {
      RelabelAbsent(f.kids, x, body);
      RootsHaveNoParent(f.rest, root, x);
      RelabelObeys(rule, f.rest, root, x, body);
    }
  }

  lemma {:induction false} RelabelKeepsRoots(rule: Rule, tag: BlockTag, f: Forest, x: BlockId, body: Body)
    requires Distinct(f) && RootsAllowed(rule, tag, f) && (IsRoot(f, x) ==> rule.Allows(tag, body.kind.tag))
    ensures RootsAllowed(rule, tag, Relabel(f, x, body))
  {
    if f.Node? && f.id != x {
      RelabelKeepsRoots(rule, tag, f.rest, x, body);
    }
  }
}
