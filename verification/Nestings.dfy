// The rows a run of list tokens stands for.

module Nestings {
  // Read off indents and kinds alone, token by token: an item joins the list of the
  // nearest earlier item that is not deeper when indent and kind agree, and otherwise
  // starts a list under the nearest earlier item that is less indented.

  import opened Options
  import opened Blocks
  import opened Lexers

  // The list tokens from `from` on, lowered after the rows `base`.
  datatype Run = Run(tokens: seq<Token>, from: nat, base: seq<Block>, parse: Text -> Content)

  function ListKindOf(k: TokenKind): ListKind {
    if k == Ordered then ListKind.Numbered else if k == TodoItem then Todo else Bulleted
  }

  function ItemBody(t: Token, parse: Text -> Content): Body {
    Body(Plain(ListItem).(checked := t.checked), parse(t.text))
  }

  function ListBody(kind: ListKind): Body {
    Body(Plain(List).(listKind := kind), Content([], []))
  }

  /** The nearest token before `j` with an indent of at most `d`. */
  function Near(r: Run, j: nat, d: nat): (k: Option<nat>)
    requires j <= |r.tokens|
    ensures k.Some? ==> r.from <= k.value < j && r.tokens[k.value].indent <= d
    ensures forall t :: (match k case None => r.from case Some(v) => v + 1) <= t < j ==> r.tokens[t].indent > d
  {
    if j <= r.from then None
    else if r.tokens[j - 1].indent <= d then Some(j - 1)
    else Near(r, j - 1, d)
  }

  function NearTo(r: Run, j: nat): Option<nat>
    requires j < |r.tokens|
  {
    Near(r, j, r.tokens[j].indent)
  }

  /** Token `j` goes on the list of the nearest earlier item that is not deeper. */
  predicate Joins(r: Run, j: nat)
    requires j < |r.tokens|
  {
    match NearTo(r, j)
    case None => false
    case Some(k) =>
      r.tokens[k].indent == r.tokens[j].indent && ListKindOf(r.tokens[k].kind) == ListKindOf(r.tokens[j].kind)
  }

  /** The rows once the tokens before `j` are lowered. */
  function Rows(r: Run, j: nat): (rows: seq<Block>)
    requires r.from <= j <= |r.tokens|
    ensures |rows| >= |r.base| + (j - r.from)
    decreases j, 0
  {
    if j == r.from then r.base else Rows(r, j - 1) + Added(r, j - 1)
  }

  /** The rows of token `j`: its item, and before it the list it starts, if it does. */
  function Added(r: Run, j: nat): (rows: seq<Block>)
    requires r.from <= j < |r.tokens|
    ensures |rows| >= 1
    decreases j, 2
  {
    var n, body := |Rows(r, j)|, ItemBody(r.tokens[j], r.parse);
    if Joins(r, j) then [Block(n, Some(ListId(r, j)), body)]
    else [Block(n, OwnerOf(r, j), ListBody(ListKindOf(r.tokens[j].kind))), Block(n + 1, Some(n), body)]
  }

  /** The list token `j` is on. */
  function ListId(r: Run, j: nat): BlockId
    requires r.from <= j < |r.tokens|
    decreases j, 1
  {
    if Joins(r, j) then ListId(r, NearTo(r, j).value) else |Rows(r, j)|
  }

  /** The item token `j` is lowered to. */
  function ItemId(r: Run, j: nat): BlockId
    requires r.from <= j < |r.tokens|
    decreases j + 1, 1
  {
    |Rows(r, j + 1)| - 1
  }

  /** The item the list of token `j` stands under. */
  function OwnerOf(r: Run, j: nat): Option<BlockId>
    requires r.from <= j < |r.tokens|
    decreases j, 1
  {
    match NearTo(r, j)
    case None => None
    case Some(k) =>
      if r.tokens[k].indent == r.tokens[j].indent then OwnerOf(r, k) else Some(|Rows(r, k + 1)| - 1)
  }

  // ----- What the rows say

  /** The nearest earlier token that is less indented. */
  function NearLess(r: Run, j: nat): Option<nat>
    requires j < |r.tokens|
  {
    if r.tokens[j].indent == 0 then None else Near(r, j, r.tokens[j].indent - 1)
  }

  lemma NearLessOf(r: Run, j: nat, k: Option<nat>)
    requires r.from <= j < |r.tokens| && NearTo(r, j) == k
    ensures k == None ==> NearLess(r, j) == None
    ensures k.Some? && r.tokens[k.value].indent < r.tokens[j].indent ==> NearLess(r, j) == k
    ensures k.Some? && r.tokens[k.value].indent == r.tokens[j].indent ==> NearLess(r, j) == NearLess(r, k.value)
  {
    var d := r.tokens[j].indent;
    if d > 0 {
      if k.Some? && r.tokens[k.value].indent == d {
        NearBelow(r, k.value, j, d - 1);
      } else {
        NearIs(r, j, d - 1, k);
      }
    }
  }

  /** The list of a token stands under the nearest earlier item that is less indented. */
  lemma {:induction false} OwnerIsLessIndented(r: Run, j: nat)
    requires r.from <= j < |r.tokens|
    ensures OwnerOf(r, j) == match NearLess(r, j) case None => None case Some(k) => Some(ItemId(r, k))
    decreases j
  {
    var k := NearTo(r, j);
    NearLessOf(r, j, k);
    if k.Some? {
      NearestDecides(r, j, k.value);
      if r.tokens[k.value].indent == r.tokens[j].indent {
        OwnerIsLessIndented(r, k.value);
      }
    }
  }

  /** Tokens deeper than `d` do not change which one is nearest. */
  lemma {:induction false} NearBelow(r: Run, k: nat, j: nat, d: nat)
    requires r.from <= k <= j <= |r.tokens| && forall t :: k <= t < j ==> r.tokens[t].indent > d
    ensures Near(r, j, d) == Near(r, k, d)
    decreases j - k
  {
    if k < j {
      NearBelow(r, k, j - 1, d);
    }
  }

  lemma NearIs(r: Run, j: nat, d: nat, k: Option<nat>)
    requires r.from <= j <= |r.tokens|
    requires k.Some? ==> r.from <= k.value < j && r.tokens[k.value].indent <= d
    requires forall t :: (match k case None => r.from case Some(v) => v + 1) <= t < j ==> r.tokens[t].indent > d
    ensures Near(r, j, d) == k
  {
    var s := match k case None => r.from case Some(v) => v + 1;
    NearBelow(r, s, j, d);
  }

  /** Rows already there stay. */
  lemma {:induction false} RowsGrow(r: Run, i: nat, j: nat)
    requires r.from <= i <= j <= |r.tokens|
    ensures Rows(r, i) <= Rows(r, j)
    decreases j - i
  {
    if i < j {
      RowsGrow(r, i, j - 1);
    }
  }

  lemma {:induction false} TokenNests(r: Run, j: nat)
    requires r.from <= j < |r.tokens|
    ensures var rows, l, id := Rows(r, j + 1), ListId(r, j), ItemId(r, j);
      && rows[id] == Block(id, Some(l), ItemBody(r.tokens[j], r.parse))
      && l < id && rows[l] == Block(l, OwnerOf(r, j), ListBody(ListKindOf(r.tokens[j].kind)))
    decreases j
  {
    if Joins(r, j) {
      var k := NearTo(r, j).value;
      TokenNests(r, k);
      RowsGrow(r, k + 1, j);
      RowsGrow(r, j, j + 1);
    }
  }

  /** Token `j` is an item of the run's rows, on a list of its own kind that stands under its owner. */
  lemma TokenIsNested(r: Run, j: nat)
    requires r.from <= j < |r.tokens|
    ensures var rows, l, id := Rows(r, j + 1), ListId(r, j), ItemId(r, j);
      && rows[id] == Block(id, Some(l), ItemBody(r.tokens[j], r.parse))
      && l < id && rows[l] == Block(l, OwnerOf(r, j), ListBody(ListKindOf(r.tokens[j].kind)))
      && rows[l].body.kind.tag == List && rows[id].body.kind.tag == ListItem
      && rows[l].body.kind.listKind == match r.tokens[j].kind case Ordered => Numbered case TodoItem => Todo case _ => Bulleted
  {
    TokenNests(r, j);
  }

  /** Token `t` does not end a list that token `k` is on: it is deeper, or on that list's level and of its kind. */
  predicate GoesAlong(r: Run, t: nat, k: nat)
    requires t < |r.tokens| && k < |r.tokens|
  {
    var a, b := r.tokens[t], r.tokens[k];
    a.indent > b.indent || (a.indent == b.indent && ListKindOf(a.kind) == ListKindOf(b.kind))
  }

  /** Two tokens are on one list exactly when they agree in indent and kind and every token
      between them is deeper or agrees as well. */
  lemma {:induction false} SameListExactly(r: Run, j: nat, k: nat)
    requires r.from <= j < k < |r.tokens|
    ensures ListId(r, j) == ListId(r, k) <==>
      && r.tokens[j].indent == r.tokens[k].indent && ListKindOf(r.tokens[j].kind) == ListKindOf(r.tokens[k].kind)
      && forall t :: j < t < k ==> GoesAlong(r, t, k)
    decreases k
  {
    ListIsOlder(r, j, k);
    var d := r.tokens[k].indent;
    match NearTo(r, k)
    case None => assert r.tokens[j].indent > d;
    case Some(n) =>
      assert ListId(r, k) == if Joins(r, k) then ListId(r, n) else |Rows(r, k)|;
      NearestGoesAlong(r, k, n);
      if n < j {
        SameListExactly(r, n, j);
        assert r.tokens[j].indent > d;
      } else if j < n {
        SameListExactly(r, j, n);
        AlongThrough(r, j, n, k);
      } else {
        assert forall t :: j < t < k ==> GoesAlong(r, t, k);
      }
  }

  /** Every token behind the nearest goes along, and the nearest where its list is joined. */
  lemma NearestGoesAlong(r: Run, k: nat, n: nat)
    requires k < |r.tokens| && NearTo(r, k) == Some(n)
    ensures n < k && r.tokens[n].indent <= r.tokens[k].indent && forall t :: n < t < k ==> GoesAlong(r, t, k) && r.tokens[t].indent > r.tokens[k].indent
    ensures Joins(r, k) <==> GoesAlong(r, n, k)
  {
  }

  /** What goes along up to a token goes along up to one that joins its list. */
  lemma AlongThrough(r: Run, j: nat, n: nat, k: nat)
    requires j < n < k < |r.tokens| && forall t :: n < t < k ==> GoesAlong(r, t, k)
    requires r.tokens[n].indent <= r.tokens[k].indent
    ensures (forall t :: j < t < k ==> GoesAlong(r, t, k)) <==> GoesAlong(r, n, k) && forall t :: j < t < n ==> GoesAlong(r, t, n)
  {
    if GoesAlong(r, n, k) {
      forall t | j < t < n ensures GoesAlong(r, t, n) <==> GoesAlong(r, t, k) {
      }
    }
  }

  lemma ListIsOlder(r: Run, j: nat, k: nat)
    requires r.from <= j < k < |r.tokens|
    ensures ListId(r, j) < |Rows(r, k)|
  {
    TokenNests(r, j);
    RowsGrow(r, j + 1, k);
  }

  // ----- What the pass keeps

  /** The list of token `q` ends before `i`: no list token, a shallower one, or another kind. */
  predicate Stops(r: Run, q: nat, i: nat)
    requires q < |r.tokens| && i <= |r.tokens|
  {
    i == |r.tokens| || !Continues(r.tokens, q, i)
  }

  /** Token `i` belongs to the list of token `q` or to one nested in it. */
  predicate Continues(tokens: seq<Token>, q: nat, i: nat)
    requires q < |tokens| && i < |tokens|
  {
    && tokens[i].kind.IsList()
    && (tokens[i].indent > tokens[q].indent
        || (tokens[i].indent == tokens[q].indent && ListKindOf(tokens[i].kind) == ListKindOf(tokens[q].kind)))
  }

  /** Since item `p` only deeper tokens, the last of them on list of `q`, which has ended. */
  ghost predicate Closed(r: Run, p: nat, q: nat, i: nat) {
    && r.from <= p < q < i <= |r.tokens| && r.tokens[p].indent < r.tokens[q].indent
    && (forall t :: p < t < i ==> r.tokens[t].indent >= r.tokens[q].indent)
    && (forall t :: q < t < i ==> r.tokens[t].indent > r.tokens[q].indent)
    && OwnerOf(r, q) == Some(ItemId(r, p)) && Stops(r, q, i)
  }

  /** `p` is the last item of an open list when token `i` is next. */
  ghost predicate LastItem(r: Run, p: nat, i: nat) {
    r.from <= p < i <= |r.tokens| && (i == p + 1 || exists q: nat :: Closed(r, p, q, i))
  }

  /** The next token, on the same level and of the same kind, joins the list of the last item. */
  lemma NextJoins(r: Run, p: nat, i: nat)
    requires LastItem(r, p, i) && i < |r.tokens|
    requires r.tokens[i].indent == r.tokens[p].indent && ListKindOf(r.tokens[i].kind) == ListKindOf(r.tokens[p].kind)
    ensures Joins(r, i) && ListId(r, i) == ListId(r, p) && OwnerOf(r, i) == OwnerOf(r, p)
  {
    NearIs(r, i, r.tokens[i].indent, Some(p));
  }

  /** The next token, deeper, starts a list under the last item. */
  lemma NextNests(r: Run, p: nat, i: nat)
    requires LastItem(r, p, i) && i < |r.tokens| && r.tokens[i].kind.IsList() && r.tokens[i].indent > r.tokens[p].indent
    ensures !Joins(r, i) && OwnerOf(r, i) == Some(ItemId(r, p))
  {
    if i == p + 1 {
      NearIs(r, i, r.tokens[i].indent, Some(p));
    } else {
      var q: nat :| Closed(r, p, q, i);
      NestsAfter(r, p, q, i);
    }
  }

  lemma NestsAfter(r: Run, p: nat, q: nat, i: nat)
    requires Closed(r, p, q, i) && i < |r.tokens| && r.tokens[i].kind.IsList() && r.tokens[i].indent > r.tokens[p].indent
    ensures !Joins(r, i) && OwnerOf(r, i) == Some(ItemId(r, p))
  {
    var k := if r.tokens[i].indent == r.tokens[q].indent then q else p;
    NearIs(r, i, r.tokens[i].indent, Some(k));
    NearestDecides(r, i, k);
  }

  lemma NearestDecides(r: Run, j: nat, k: nat)
    requires r.from <= j < |r.tokens| && Near(r, j, r.tokens[j].indent) == Some(k)
    ensures Joins(r, j) <==>
      r.tokens[k].indent == r.tokens[j].indent && ListKindOf(r.tokens[k].kind) == ListKindOf(r.tokens[j].kind)
    ensures OwnerOf(r, j) == if r.tokens[k].indent == r.tokens[j].indent then OwnerOf(r, k) else Some(ItemId(r, k))
  {
  }

  /** After a nested list from `i` to `j` the item before it is still the last. */
  lemma NestedEnds(r: Run, p: nat, i: nat, q: nat, j: nat)
    requires LastItem(r, p, i) && i < |r.tokens| && r.tokens[i].kind.IsList() && r.tokens[i].indent > r.tokens[p].indent
    requires i <= q < j <= |r.tokens| && r.tokens[q].indent == r.tokens[i].indent
    requires forall t :: i <= t < j ==> r.tokens[t].indent >= r.tokens[i].indent
    requires forall t :: q < t < j ==> r.tokens[t].indent > r.tokens[q].indent
    requires OwnerOf(r, q) == Some(ItemId(r, p)) && Stops(r, q, j)
    ensures LastItem(r, p, j)
  {
    if i != p + 1 {
      var q0: nat :| Closed(r, p, q0, i);
    }
    assert Closed(r, p, q, j);
  }

  /** Where the list that starts at `q` ends, looking from `i` on. */
  function ListEnd(tokens: seq<Token>, q: nat, i: nat): (e: nat)
    requires q < |tokens| && i <= |tokens|
    ensures i <= e <= |tokens|
    decreases |tokens| - i
  {
    if i < |tokens| && Continues(tokens, q, i) then ListEnd(tokens, q, i + 1) else i
  }

  lemma {:induction false} ListEndSkips(tokens: seq<Token>, q: nat, i: nat, j: nat)
    requires q < |tokens| && i <= j <= |tokens| && forall t :: i <= t < j ==> Continues(tokens, q, t)
    ensures ListEnd(tokens, q, i) == ListEnd(tokens, q, j)
    decreases j - i
  {
    if i < j {
      ListEndSkips(tokens, q, i + 1, j);
    }
  }

  lemma {:induction false} ListEndContinues(tokens: seq<Token>, q: nat, i: nat, t: nat)
    requires q < |tokens| && i <= |tokens| && i <= t < ListEnd(tokens, q, i)
    ensures Continues(tokens, q, t)
    decreases t - i
  {
    if i < t {
      ListEndContinues(tokens, q, i + 1, t);
    }
  }
}
