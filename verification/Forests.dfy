// The inductive reading of a page: an ordered forest, its depth-first
// flattening, and the structural operations the slice code must implement.

module Forests {
  import opened Options
  import opened Blocks

  // First child / next sibling: `kids` are the node's children, `rest` the
  // siblings after it.
  datatype Forest = Nil | Node(id: BlockId, body: Body, kids: Forest, rest: Forest)

  // ----- Definitions

  /** Depth-first rows of `f`, whose roots all have the given parent. */
  function Flatten(f: Forest, parent: Option<BlockId>): (s: seq<Block>)
    ensures |s| == Size(f)
  {
    match f
    case Nil => []
    case Node(id, body, kids, rest) =>
      [Block(id, parent, body)] + Flatten(kids, Some(id)) + Flatten(rest, parent)
  }

  function Size(f: Forest): nat {
    match f
    case Nil => 0
    case Node(_, _, kids, rest) => 1 + Size(kids) + Size(rest)
  }

  function Ids(f: Forest): set<BlockId> {
    match f
    case Nil => {}
    case Node(id, _, kids, rest) => {id} + Ids(kids) + Ids(rest)
  }

  ghost predicate Distinct(f: Forest) {
    match f
    case Nil => true
    case Node(id, _, kids, rest) =>
      && id !in Ids(kids) && id !in Ids(rest) && Ids(kids) !! Ids(rest)
      && Distinct(kids) && Distinct(rest)
  }

  // The two rules on parent-child pairs: only containers have children, and
  // a list item's children are lists or paragraphs.
  datatype Rule = ContainerRule | ListItemRule {
    predicate Allows(parent: BlockTag, child: BlockTag) {
      match this
      case ContainerRule => parent.IsContainer()
      case ListItemRule => ChildAllowed(parent, child)
    }
  }

  /** Every root of `f` may be a child of a `parent` block. */
  ghost predicate RootsAllowed(rule: Rule, parent: BlockTag, f: Forest) {
    f.Node? ==> rule.Allows(parent, f.body.kind.tag) && RootsAllowed(rule, parent, f.rest)
  }

  /** Every parent-child pair in `f` follows the rule. */
  ghost predicate Obeys(rule: Rule, f: Forest) {
    match f
    case Nil => true
    case Node(_, body, kids, rest) =>
      RootsAllowed(rule, body.kind.tag, kids) && Obeys(rule, kids) && Obeys(rule, rest)
  }

  /** The page invariant: a forest of distinct blocks whose inner nodes are containers. */
  ghost predicate WellFormed(f: Forest) {
    Distinct(f) && Obeys(ContainerRule, f)
  }

  /** Position of `x` in the flattening. */
  function IndexOf(f: Forest, x: BlockId): (i: nat)
    requires x in Ids(f)
    ensures i < Size(f)
  {
    if f.id == x then 0
    else if x in Ids(f.kids) then 1 + IndexOf(f.kids, x)
    else 1 + Size(f.kids) + IndexOf(f.rest, x)
  }

  /** The one-root forest at `x`, descendants included. */
  function Subtree(f: Forest, x: BlockId): (t: Forest)
    requires x in Ids(f)
    ensures t.Node? && t.id == x && t.rest == Nil
  {
    if f.id == x then f.(rest := Nil)
    else if x in Ids(f.kids) then Subtree(f.kids, x)
    else Subtree(f.rest, x)
  }

  /** The ids strictly below `x`. */
  function Below(f: Forest, x: BlockId): set<BlockId>
    requires x in Ids(f)
  {
    Ids(Subtree(f, x).kids)
  }

  function ParentOf(f: Forest, parent: Option<BlockId>, x: BlockId): Option<BlockId>
    requires x in Ids(f)
  {
    if f.id == x then parent
    else if x in Ids(f.kids) then ParentOf(f.kids, Some(f.id), x)
    else ParentOf(f.rest, parent, x)
  }

  /** The sibling immediately before `x`. */
  function PrevOf(f: Forest, x: BlockId): Option<BlockId>
    requires x in Ids(f)
  {
    if f.id == x then None
    else if x in Ids(f.kids) then PrevOf(f.kids, x)
    else if f.rest != Nil && f.rest.id == x then Some(f.id)
    else PrevOf(f.rest, x)
  }

  /** `f` without the subtree at `x`. */
  function Remove(f: Forest, x: BlockId): Forest {
    match f
    case Nil => Nil
    case Node(id, body, kids, rest) =>
      if id == x then rest else Node(id, body, Remove(kids, x), Remove(rest, x))
  }

  function Append(f: Forest, g: Forest): Forest {
    match f
    case Nil => g
    case Node(id, body, kids, rest) => Node(id, body, kids, Append(rest, g))
  }

  /** Put `g` among the roots of `f`: first, or right after the root `after`. */
  function InsertRoot(f: Forest, after: Option<BlockId>, g: Forest): Forest {
    if after == None then Append(g, f)
    else match f
      case Nil => Nil
      case Node(id, body, kids, rest) =>
        if id == after.value then Node(id, body, kids, Append(g, rest))
        else Node(id, body, kids, InsertRoot(rest, after, g))
  }

  /** Put `g` among the children of `parent` (the roots for None), after the child `after`. */
  function Insert(f: Forest, parent: Option<BlockId>, after: Option<BlockId>, g: Forest): Forest {
    if parent == None then InsertRoot(f, after, g)
    else match f
      case Nil => Nil
      case Node(id, body, kids, rest) =>
        if id == parent.value then Node(id, body, InsertRoot(kids, after, g), rest)
        else Node(id, body, Insert(kids, parent, after, g), Insert(rest, parent, after, g))
  }

  /** Change what `x` holds, leaving the tree alone. */
  function Relabel(f: Forest, x: BlockId, body: Body): Forest {
    match f
    case Nil => Nil
    case Node(id, old_, kids, rest) =>
      if id == x then Node(id, body, kids, rest)
      else Node(id, old_, Relabel(kids, x, body), Relabel(rest, x, body))
  }

  function BodyOf(f: Forest, x: BlockId): Body
    requires x in Ids(f)
  {
    Subtree(f, x).body
  }

  /** `a` is a top-level node of `f`. */
  ghost predicate IsRoot(f: Forest, a: BlockId) {
    f.Node? && (f.id == a || IsRoot(f.rest, a))
  }

  /** The children of `parent`; the roots of `f` for None. */
  function KidsOf(f: Forest, parent: Option<BlockId>): Forest
    requires parent.Some? ==> parent.value in Ids(f)
  {
    if parent == None then f else Subtree(f, parent.value).kids
  }

  /** `parent` exists and `after`, if given, is one of its children. */
  ghost predicate IsPlace(f: Forest, parent: Option<BlockId>, after: Option<BlockId>) {
    && (parent.Some? ==> parent.value in Ids(f))
    && (after.Some? ==> IsRoot(KidsOf(f, parent), after.value))
  }

  /** Where (parent, after) falls in the flattening. */
  function PlaceIndex(f: Forest, parent: Option<BlockId>, after: Option<BlockId>): nat
    requires parent.Some? ==> parent.value in Ids(f)
    requires after.Some? ==> after.value in Ids(f)
  {
    match after
    case Some(a) => IndexOf(f, a) + Size(Subtree(f, a))
    case None => if parent.Some? then IndexOf(f, parent.value) + 1 else 0
  }

  // ----- The flattening, located

  lemma {:induction false} FlattenIds(f: Forest, parent: Option<BlockId>, i: nat)
    requires i < Size(f)
    ensures Flatten(f, parent)[i].id in Ids(f)
    ensures Distinct(f) ==> IndexOf(f, Flatten(f, parent)[i].id) == i
  {
    var Node(id, body, kids, rest) := f;
    if i == 0 {
    } else if i < 1 + Size(kids) {
      FlattenIds(kids, Some(id), i - 1);
    } else {
      FlattenIds(rest, parent, i - 1 - Size(kids));
    }
  }

  /** `s` with the `n` elements at `i` replaced by `g`: Go's slices.Delete and slices.Insert. */
  function Splice<T>(s: seq<T>, i: nat, n: nat, g: seq<T>): seq<T>
    requires i + n <= |s|
  {
    s[..i] + g + s[i + n..]
  }

  /** Position `at` of the whole is position `i` of its middle. */
  lemma SpliceMiddle<T>(a: seq<T>, m: seq<T>, c: seq<T>, at: nat, i: nat, n: nat, g: seq<T>)
    requires i + n <= |m| && at == |a| + i
    ensures Splice(a + m + c, at, n, g) == a + Splice(m, i, n, g) + c
    ensures (a + m + c)[at..at + n] == m[i..i + n]
  {
    var s := a + m + c;
    assert s[..at] == a + m[..i];
    assert s[at + n..] == m[i + n..] + c;
  }

  /** The subtree at `x` is one contiguous run of the flattening, and removing
      the subtree removes exactly that run. */
  ghost predicate IsRun(f: Forest, parent: Option<BlockId>, x: BlockId)
    requires x in Ids(f)
  {
    var s, i, t := Flatten(f, parent), IndexOf(f, x), Subtree(f, x);
    && i + Size(t) <= |s|
    && s[i..i + Size(t)] == Flatten(t, ParentOf(f, parent, x))
    && Flatten(Remove(f, x), parent) == Splice(s, i, Size(t), [])
  }

  lemma {:induction false} SubtreeIsRun(f: Forest, parent: Option<BlockId>, x: BlockId)
    requires Distinct(f) && x in Ids(f)
    ensures IsRun(f, parent, x)
  {
    if f.id == x {
      RootIsRun(f, parent);
    } else if x in Ids(f.kids) {
      SubtreeIsRun(f.kids, Some(f.id), x);
      KidRunIsRun(f, parent, x);
    } else {
      SubtreeIsRun(f.rest, parent, x);
      RestRunIsRun(f, parent, x);
    }
  }

  lemma {:induction false} RootIsRun(f: Forest, parent: Option<BlockId>)
    requires f.Node?
    ensures IsRun(f, parent, f.id)
  {
    var t := Subtree(f, f.id);
    var head, k := [Block(f.id, parent, f.body)], Flatten(f.kids, Some(f.id));
    assert Flatten(t, parent) == head + k + Flatten(Nil, parent) == head + k;
    assert Flatten(f, parent)[0..Size(t)] == head + k;
  }

  lemma {:induction false} KidRunIsRun(f: Forest, parent: Option<BlockId>, x: BlockId)
    requires Distinct(f) && f.Node? && x in Ids(f.kids) && IsRun(f.kids, Some(f.id), x)
    ensures IsRun(f, parent, x)
  {
    var head, k, r := [Block(f.id, parent, f.body)], Flatten(f.kids, Some(f.id)), Flatten(f.rest, parent);
    var n, i := Size(Subtree(f, x)), IndexOf(f.kids, x);
    RemoveAbsent(f.rest, x);
    SpliceMiddle(head, k, r, IndexOf(f, x), i, n, []);
    assert Flatten(Remove(f, x), parent) == head + Splice(k, i, n, []) + r;
  }

  lemma {:induction false} RestRunIsRun(f: Forest, parent: Option<BlockId>, x: BlockId)
    requires Distinct(f) && f.Node? && x in Ids(f.rest) && IsRun(f.rest, parent, x)
    ensures IsRun(f, parent, x)
  {
    var head, k, r := [Block(f.id, parent, f.body)], Flatten(f.kids, Some(f.id)), Flatten(f.rest, parent);
    var n, i := Size(Subtree(f, x)), IndexOf(f.rest, x);
    RemoveAbsent(f.kids, x);
    SpliceMiddle(head + k, r, [], IndexOf(f, x), i, n, []);
    assert Flatten(f, parent) == head + k + r + [];
    assert Flatten(Remove(f, x), parent) == head + k + Splice(r, i, n, []) + [];
  }

  lemma {:induction false} RemoveAbsent(f: Forest, x: BlockId)
    requires x !in Ids(f)
    ensures Remove(f, x) == f
  {
    match f
    case Nil =>
    case Node(_, _, kids, rest) =>
      RemoveAbsent(kids, x);
      RemoveAbsent(rest, x);
  }

  // ----- Roots, children and parents

  lemma {:induction false} RootInIds(f: Forest, a: BlockId)
    requires IsRoot(f, a)
    ensures a in Ids(f)
  {
    if f.id != a {
      RootInIds(f.rest, a);
    }
  }

  lemma {:induction false} SubtreeIds(f: Forest, x: BlockId)
    requires x in Ids(f)
    ensures Ids(Subtree(f, x)) <= Ids(f)
    ensures Ids(Subtree(f, x)) == {x} + Below(f, x)
    ensures Distinct(f) ==> Distinct(Subtree(f, x)) && x !in Below(f, x)
  {
    assert Ids(Nil) == {};
    if f.id == x {
    } else if x in Ids(f.kids) {
      SubtreeIds(f.kids, x);
    } else {
      SubtreeIds(f.rest, x);
    }
  }

  /** The top-level nodes are exactly those whose parent is the given one. */
  lemma {:induction false} RootsHaveNoParent(f: Forest, parent: Option<BlockId>, a: BlockId)
    requires Distinct(f) && a in Ids(f)
    requires parent.Some? ==> parent.value !in Ids(f)
    ensures ParentOf(f, parent, a) == parent <==> IsRoot(f, a)
    ensures ParentOf(f, parent, a) == parent || (ParentOf(f, parent, a).Some? && ParentOf(f, parent, a).value in Ids(f))
  {
    if f.id == a {
    } else if a in Ids(f.kids) {
      RootsHaveNoParent(f.kids, Some(f.id), a);
      NotRoot(f.rest, a);
    } else {
      RootsHaveNoParent(f.rest, parent, a);
    }
  }

  lemma {:induction false} NotRoot(f: Forest, a: BlockId)
    requires a !in Ids(f)
    ensures !IsRoot(f, a)
  {
    if f.Node? {
      NotRoot(f.rest, a);
    }
  }

  /** The children of `q` are exactly the nodes whose parent is `q`. */
  lemma {:induction false} ChildrenHaveParent(f: Forest, parent: Option<BlockId>, q: BlockId, a: BlockId)
    requires Distinct(f) && q in Ids(f) && a in Ids(f)
    requires parent.Some? ==> parent.value !in Ids(f)
    ensures ParentOf(f, parent, a) == Some(q) <==> IsRoot(Subtree(f, q).kids, a)
  {
    SubtreeIds(f, q);
    if IsRoot(Subtree(f, q).kids, a) {
      RootInIds(Subtree(f, q).kids, a);
    }
    if a == f.id {
      if q != f.id && q in Ids(f.kids) {
        SubtreeIds(f.kids, q);
      } else if q != f.id {
        SubtreeIds(f.rest, q);
      }
    } else if a in Ids(f.kids) {
      RootsHaveNoParent(f.kids, Some(f.id), a);
      if q in Ids(f.kids) {
        ChildrenHaveParent(f.kids, Some(f.id), q, a);
      } else if q != f.id {
        SubtreeIds(f.rest, q);
      }
    } else {
      RootsHaveNoParent(f.rest, parent, a);
      if q in Ids(f.rest) {
        ChildrenHaveParent(f.rest, parent, q, a);
      } else if q != f.id {
        SubtreeIds(f.kids, q);
      }
    }
  }

  /** Parent links stay inside a subtree, and enter it only at its root. */
  lemma {:induction false} ParentLinksClosed(f: Forest, parent: Option<BlockId>, x: BlockId, y: BlockId)
    requires Distinct(f) && x in Ids(f) && y in Ids(f)
    requires parent.Some? ==> parent.value !in Ids(f)
    ensures y in Below(f, x) <==>
            ParentOf(f, parent, y).Some? && ParentOf(f, parent, y).value in Below(f, x) + {x}
  {
    SubtreeIds(f, x);
    RootsHaveNoParent(f, parent, y);
    if y == f.id {
      if x != f.id && x in Ids(f.kids) {
        SubtreeIds(f.kids, x);
      } else if x != f.id {
        SubtreeIds(f.rest, x);
      }
    } else if y in Ids(f.kids) {
      RootsHaveNoParent(f.kids, Some(f.id), y);
      if x in Ids(f.kids) {
        ParentLinksClosed(f.kids, Some(f.id), x, y);
      } else if x != f.id {
        SubtreeIds(f.rest, x);
      }
    } else {
      RootsHaveNoParent(f.rest, parent, y);
      if x in Ids(f.rest) {
        ParentLinksClosed(f.rest, parent, x, y);
      } else if x != f.id {
        SubtreeIds(f.kids, x);
      }
    }
  }

  /** A parent comes earlier in the flattening. */
  lemma {:induction false} ParentIsEarlier(f: Forest, parent: Option<BlockId>, y: BlockId)
    requires Distinct(f) && y in Ids(f)
    requires parent.Some? ==> parent.value !in Ids(f)
    ensures var q := ParentOf(f, parent, y);
            q == parent || (q.Some? && q.value in Ids(f) && IndexOf(f, q.value) < IndexOf(f, y))
  {
    if y == f.id {
    } else if y in Ids(f.kids) {
      ParentIsEarlier(f.kids, Some(f.id), y);
    } else {
      ParentIsEarlier(f.rest, parent, y);
    }
  }

  // ----- Insertion is a splice

  lemma {:induction false} AppendFlattens(f: Forest, g: Forest, parent: Option<BlockId>)
    ensures Flatten(Append(f, g), parent) == Flatten(f, parent) + Flatten(g, parent)
  {
    match f
    case Nil =>
    case Node(id, body, kids, rest) =>
      AppendFlattens(rest, g, parent);
      var head, k := [Block(id, parent, body)], Flatten(kids, Some(id));
      assert head + k + (Flatten(rest, parent) + Flatten(g, parent)) == head + k + Flatten(rest, parent) + Flatten(g, parent);
  }

  ghost predicate IsInsertion(f: Forest, root: Option<BlockId>, parent: Option<BlockId>, after: Option<BlockId>, g: Forest)
    requires parent.Some? ==> parent.value in Ids(f)
    requires after.Some? ==> after.value in Ids(f)
  {
    && PlaceIndex(f, parent, after) <= Size(f)
    && Flatten(Insert(f, parent, after, g), root)
       == Splice(Flatten(f, root), PlaceIndex(f, parent, after), 0, Flatten(g, if parent.Some? then parent else root))
  }

  lemma {:induction false} InsertRootIsSplice(f: Forest, parent: Option<BlockId>, after: Option<BlockId>, g: Forest)
    requires Distinct(f)
    requires after.Some? ==> IsRoot(f, after.value)
    ensures after.Some? ==> after.value in Ids(f)
    ensures IsInsertion(f, parent, None, after, g)
  {
    if after == None {
      InsertFirst(f, parent, g);
    } else if f.id == after.value {
      InsertAfterFirst(f, parent, g);
    } else {
      RootInIds(f.rest, after.value);
      InsertRootIsSplice(f.rest, parent, after, g);
      InsertAmongRest(f, parent, after, g);
    }
  }

  lemma {:induction false} InsertAmongRest(f: Forest, parent: Option<BlockId>, after: Option<BlockId>, g: Forest)
    requires Distinct(f) && f.Node? && after.Some? && after.value in Ids(f.rest)
    requires IsInsertion(f.rest, parent, None, after, g)
    ensures IsInsertion(f, parent, None, after, g)
  {
    var hk, r := [Block(f.id, parent, f.body)] + Flatten(f.kids, Some(f.id)), Flatten(f.rest, parent);
    SpliceMiddle(hk, r, [], PlaceIndex(f, None, after), PlaceIndex(f.rest, None, after), 0, Flatten(g, parent));
    assert Flatten(f, parent) == hk + r + [];
  }

  lemma {:induction false} InsertFirst(f: Forest, parent: Option<BlockId>, g: Forest)
    ensures IsInsertion(f, parent, None, None, g)
  {
    AppendFlattens(g, f, parent);
    assert Splice(Flatten(f, parent), 0, 0, Flatten(g, parent)) == Flatten(g, parent) + Flatten(f, parent);
  }

  lemma {:induction false} InsertAfterFirst(f: Forest, parent: Option<BlockId>, g: Forest)
    requires f.Node?
    ensures IsInsertion(f, parent, None, Some(f.id), g)
  {
    var head, k, r := [Block(f.id, parent, f.body)], Flatten(f.kids, Some(f.id)), Flatten(f.rest, parent);
    AppendFlattens(g, f.rest, parent);
    assert Size(Subtree(f, f.id)) == 1 + |k| + Size(Nil) == |head + k|;
    assert Splice(head + k + r, |head + k|, 0, Flatten(g, parent)) == head + k + (Flatten(g, parent) + r);
  }

  lemma {:induction false} InsertAbsent(f: Forest, parent: Option<BlockId>, after: Option<BlockId>, g: Forest)
    requires parent.Some? && parent.value !in Ids(f)
    ensures Insert(f, parent, after, g) == f
  {
    match f
    case Nil =>
    case Node(_, _, kids, rest) =>
      InsertAbsent(kids, parent, after, g);
      InsertAbsent(rest, parent, after, g);
  }

  lemma {:induction false} PlaceInIds(f: Forest, parent: Option<BlockId>, after: Option<BlockId>)
    requires IsPlace(f, parent, after)
    ensures after.Some? ==> after.value in Ids(f)
    ensures after.Some? && parent.Some? ==> after.value in Below(f, parent.value)
  {
    if after.Some? {
      RootInIds(KidsOf(f, parent), after.value);
      if parent.Some? {
        SubtreeIds(f, parent.value);
      }
    }
  }

  /** Inserting a forest at (parent, after) splices its rows in at that place's index. */
  lemma {:induction false} InsertIsSplice(f: Forest, root: Option<BlockId>, parent: Option<BlockId>, after: Option<BlockId>, g: Forest)
    requires Distinct(f) && IsPlace(f, parent, after)
    ensures after.Some? ==> after.value in Ids(f)
    ensures IsInsertion(f, root, parent, after, g)
  {
    PlaceInIds(f, parent, after);
    if parent == None {
      InsertRootIsSplice(f, root, after, g);
    } else if parent.value == f.id {
      InsertUnderRoot(f, root, after, g);
    } else if parent.value in Ids(f.kids) {
      InsertIsSplice(f.kids, Some(f.id), parent, after, g);
      InsertUnderKid(f, root, parent, after, g);
    } else {
      InsertIsSplice(f.rest, root, parent, after, g);
      InsertUnderRest(f, root, parent, after, g);
    }
  }

  lemma {:induction false} InsertUnderRoot(f: Forest, root: Option<BlockId>, after: Option<BlockId>, g: Forest)
    requires Distinct(f) && f.Node? && IsPlace(f, Some(f.id), after)
    requires after.Some? ==> after.value in Ids(f)
    ensures IsInsertion(f, root, Some(f.id), after, g)
  {
    InsertRootIsSplice(f.kids, Some(f.id), after, g);
    InsertUnderHead(f, root, after, g, PlaceIndex(f.kids, None, after), PlaceIndex(f, Some(f.id), after));
  }

  lemma {:induction false} InsertUnderHead(f: Forest, root: Option<BlockId>, after: Option<BlockId>, g: Forest, i: nat, at: nat)
    requires f.Node? && i <= Size(f.kids) && at == 1 + i
    requires var p := Some(f.id);
      Flatten(InsertRoot(f.kids, after, g), p) == Splice(Flatten(f.kids, p), i, 0, Flatten(g, p))
    ensures Flatten(Insert(f, Some(f.id), after, g), root)
         == Splice(Flatten(f, root), at, 0, Flatten(g, Some(f.id)))
  {
    var head, k, r := [Block(f.id, root, f.body)], Flatten(f.kids, Some(f.id)), Flatten(f.rest, root);
    SpliceMiddle(head, k, r, at, i, 0, Flatten(g, Some(f.id)));
  }

  lemma {:induction false} InsertUnderKid(f: Forest, root: Option<BlockId>, parent: Option<BlockId>, after: Option<BlockId>, g: Forest)
    requires Distinct(f) && f.Node? && parent.Some? && parent.value in Ids(f.kids)
    requires after.Some? ==> after.value in Ids(f.kids)
    requires IsInsertion(f.kids, Some(f.id), parent, after, g)
    ensures IsInsertion(f, root, parent, after, g)
  {
    var head, k, r := [Block(f.id, root, f.body)], Flatten(f.kids, Some(f.id)), Flatten(f.rest, root);
    InsertAbsent(f.rest, parent, after, g);
    SpliceMiddle(head, k, r, PlaceIndex(f, parent, after), PlaceIndex(f.kids, parent, after), 0, Flatten(g, parent));
  }

  lemma {:induction false} InsertUnderRest(f: Forest, root: Option<BlockId>, parent: Option<BlockId>, after: Option<BlockId>, g: Forest)
    requires Distinct(f) && f.Node? && parent.Some? && parent.value in Ids(f.rest)
    requires after.Some? ==> after.value in Ids(f.rest)
    requires IsInsertion(f.rest, root, parent, after, g)
    ensures IsInsertion(f, root, parent, after, g)
  {
    var head, k, r := [Block(f.id, root, f.body)], Flatten(f.kids, Some(f.id)), Flatten(f.rest, root);
    InsertAbsent(f.kids, parent, after, g);
    SpliceMiddle(head + k, r, [], PlaceIndex(f, parent, after), PlaceIndex(f.rest, parent, after), 0, Flatten(g, parent));
    assert Flatten(f, root) == head + k + r + [];
  }
}
