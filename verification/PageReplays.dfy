// Replay against the page.

module PageReplays {
  // When replaying inserts builds what a page builds from them, for every sequence of
  // inserts a page accepts; and which inserts cannot be replayed.

  import opened Options
  import opened Blocks
  import opened Forests
  import opened ForestAlgebra
  import opened Operations
  import opened Positions
  import opened Outlines
  import opened Replays
  import Limits

  // ----- Descent by age

  /** Rows of the forest in some order, each parent before its children. */
  ghost predicate Aged(born: seq<Block>, g: Forest) {
    && (forall k :: 0 <= k < |born| ==> born[k].id in Ids(g) && born[k].parent == ParentOf(g, None, born[k].id))
    && (forall j, k :: 0 <= j < k < |born| ==> born[j].id != born[k].id)
    && (forall k :: 0 <= k < |born| && born[k].parent.Some? ==> HasId(born[..k], born[k].parent.value))
  }

  lemma AgedPrefix(born: seq<Block>, g: Forest, n: nat)
    requires Aged(born, g) && n <= |born|
    ensures Aged(born[..n], g)
  {
    forall k | 0 <= k < n && born[..n][k].parent.Some? ensures HasId(born[..n][..k], born[k].parent.value) {
      assert born[..n][..k] == born[..k];
    }
  }

  /** Walking up parents in order of age decides descent. */
  lemma {:induction false} AgedDescends(born: seq<Block>, g: Forest, x: BlockId, anc: BlockId)
    requires Distinct(g) && Aged(born, g) && anc in Ids(g) && HasId(born, x)
    ensures x in Ids(g) && (Descends(born, x, anc) <==> x in Below(g, anc))
    decreases |born|
  {
    var n := |born| - 1;
    var b, before := born[n], born[..n];
    AgedPrefix(born, g, n);
    if b.id == x {
      ParentLinksClosed(g, None, anc, x);
      if b.parent.Some? {
        AgedDescends(before, g, b.parent.value, anc);
      }
    } else {
      var k :| 0 <= k < |born| && born[k].id == x;
      assert before[k].id == x;
      AgedDescends(before, g, x, anc);
    }
  }

  // ----- The slot

  /** Rows of the forest, and the same rows by age. */
  ghost predicate Alike(s: Replayed, g: Forest) {
    Reads(s.rows, g) && SameRows(s) && Aged(s.born, g)
  }

  lemma AlikeIds(s: Replayed, g: Forest, x: BlockId)
    requires Alike(s, g)
    ensures HasId(s.born, x) <==> x in Ids(g)
  {
    SameIds(s.rows, g, x);
    if k :| 0 <= k < |s.rows| && s.rows[k].id == x {
      assert s.rows[k] in s.rows && s.rows[k] in s.born;
    }
  }

  lemma {:induction false} SkipsSubtree(s: Replayed, g: Forest, k: nat, a: BlockId)
    requires Alike(s, g) && a in Ids(g) && IndexOf(g, a) < k <= IndexOf(g, a) + Size(Subtree(g, a)) <= |s.rows|
    ensures SkipBelow(s.born, s.rows, k, a) == IndexOf(g, a) + Size(Subtree(g, a))
    decreases |s.rows| - k
  {
    if k < |s.rows| {
      var x := s.rows[k].id;
      RowAt(s.rows, g, k);
      SubtreePositions(g, a, x);
      AlikeIds(s, g, x);
      AgedDescends(s.born, g, x, a);
      if k < IndexOf(g, a) + Size(Subtree(g, a)) {
        SkipsSubtree(s, g, k + 1, a);
      }
    }
  }

  /** An insert with a parent or a predecessor goes where the page puts it; any other goes to the end. */
  lemma SlotIsPlace(s: Replayed, g: Forest, parent: Option<BlockId>, after: Option<BlockId>)
    requires Alike(s, g) && IsPlace(g, parent, after)
    ensures (after.Some? ==> after.value in Ids(g) && RowIndex(s.rows, after.value) < |s.rows|)
    ensures Slot(s, parent, after) == if parent == None && after == None then |s.rows| else PlaceIndex(g, parent, after)
  {
    PlaceInIds(g, parent, after);
    if after.Some? {
      SlotBehind(s, g, parent, after.value);
    } else if parent.Some? {
      RowIndexOf(s.rows, g, parent.value);
    }
  }

  lemma SlotBehind(s: Replayed, g: Forest, parent: Option<BlockId>, a: BlockId)
    requires Alike(s, g) && a in Ids(g)
    ensures RowIndex(s.rows, a) < |s.rows| && Slot(s, parent, Some(a)) == IndexOf(g, a) + Size(Subtree(g, a))
  {
    RowIndexOf(s.rows, g, a);
    RunFits(g, a);
    SkipsSubtree(s, g, RowIndex(s.rows, a) + 1, a);
  }

  lemma RunFits(g: Forest, a: BlockId)
    requires Distinct(g) && a in Ids(g)
    ensures IndexOf(g, a) < IndexOf(g, a) + Size(Subtree(g, a)) <= Size(g)
  {
    SubtreeIsRun(g, None, a);
  }

  // ----- One insert

  /** Neither a parent nor a predecessor is named. */
  predicate Bare(op: Op) {
    op.InsertBlock? && op.parent == None && op.after == None
  }

  lemma InsertSplices(g: Forest, op: Op)
    requires Distinct(g) && op.InsertBlock? && StepInsert(g, op).Ok?
    ensures IsPlace(g, op.parent, op.after) && (op.after.Some? ==> op.after.value in Ids(g)) && PlaceIndex(g, op.parent, op.after) <= Size(g)
    ensures Reads(Splice(Flatten(g, None), PlaceIndex(g, op.parent, op.after), 0, [Block(op.id, op.parent, op.body)]), StepInsert(g, op).value)
  {
    InsertedLeaf(g, op);
    InsertIds(g, op.parent, op.after, Node(op.id, op.body, Nil, Nil));
    LeafIsSplice(g, op.parent, op.after, op.id, op.body);
  }

  /** An insert the page accepts can be replayed. */
  lemma AcceptedReplays(s: Replayed, g: Forest, at: nat, op: Op)
    requires Alike(s, g) && op.InsertBlock? && StepInsert(g, op).Ok?
    ensures op.after.Some? ==> RowIndex(s.rows, op.after.value) < |s.rows|
    ensures var b := Block(op.id, op.parent, op.body);
      ReplayOne(s, at, op) == Ok(Replayed(Splice(s.rows, Slot(s, op.parent, op.after), 0, [b]), s.born + [b]))
  {
    InsertSplices(g, op);
    SlotIsPlace(s, g, op.parent, op.after);
    AlikeIds(s, g, op.id);
    if op.parent.Some? {
      AlikeIds(s, g, op.parent.value);
    }
  }

  lemma AgedNext(s: Replayed, g: Forest, h: Forest, b: Block, rows: seq<Block>)
    requires Alike(s, g) && !HasId(s.born, b.id) && (b.parent.Some? ==> HasId(s.born, b.parent.value))
    requires Reads(rows, h) && SameRows(Replayed(rows, s.born + [b]))
    ensures Aged(s.born + [b], h)
  {
    var born := s.born + [b];
    forall k | 0 <= k < |born| ensures born[k].id in Ids(h) && born[k].parent == ParentOf(h, None, born[k].id) {
      assert born[k] in born && born[k] in rows;
      var i :| 0 <= i < |rows| && rows[i] == born[k];
      RowAt(rows, h, i);
    }
    forall k | 0 <= k < |born| && born[k].parent.Some? ensures HasId(born[..k], born[k].parent.value) {
      if k < |s.born| {
        assert born[..k] == s.born[..k];
      } else {
        assert born[..k] == s.born;
      }
    }
  }

  /** And keeps the rows the page's, where it names its place or is the first. */
  lemma PlacedKeepsAlike(s: Replayed, g: Forest, at: nat, op: Op)
    requires Alike(s, g) && op.InsertBlock? && StepInsert(g, op).Ok? && (Bare(op) ==> s.rows == [])
    ensures ReplayOne(s, at, op).Ok? && ReplayOne(s, at, op).value.rows != [] && Alike(ReplayOne(s, at, op).value, StepInsert(g, op).value)
  {
    var b, j := Block(op.id, op.parent, op.body), PlaceIndex(g, op.parent, op.after);
    AcceptedReplays(s, g, at, op);
    InsertSplices(g, op);
    SlotIsPlace(s, g, op.parent, op.after);
    var t := Replayed(Splice(s.rows, j, 0, [b]), s.born + [b]);
    SameRowsNext(s, j, b);
    AlikeIds(s, g, op.id);
    if op.parent.Some? {
      AlikeIds(s, g, op.parent.value);
    }
    AgedNext(s, g, StepInsert(g, op).value, b, t.rows);
  }

  // ----- Once apart, apart for good

  /** Block `x` stands before block `y`. */
  ghost predicate StandsBefore(rows: seq<Block>, x: BlockId, y: BlockId) {
    exists i, j :: 0 <= i < j < |rows| && rows[i].id == x && rows[j].id == y
  }

  lemma SpliceKeepsOrder(rows: seq<Block>, k: nat, b: Block, x: BlockId, y: BlockId)
    requires k <= |rows| && StandsBefore(rows, x, y)
    ensures StandsBefore(Splice(rows, k, 0, [b]), x, y)
  {
    var i, j :| 0 <= i < j < |rows| && rows[i].id == x && rows[j].id == y;
    var more := Splice(rows, k, 0, [b]);
    var a, c := if i < k then i else i + 1, if j < k then j else j + 1;
    assert more[a] == rows[i] && more[c] == rows[j];
  }

  lemma {:induction false} ReplayKeepsOrder(s: Replayed, at: nat, ops: seq<Op>, x: BlockId, y: BlockId)
    requires StandsBefore(s.rows, x, y)
    ensures match ReplayFrom(s, at, ops) case Ok(rows) => StandsBefore(rows, x, y) case Err(_) => true
    decreases |ops|
  {
    if ops != [] && ReplayOne(s, at, ops[0]).Ok? {
      var op := ops[0];
      SpliceKeepsOrder(s.rows, Slot(s, op.parent, op.after), Block(op.id, op.parent, op.body), x, y);
      ReplayKeepsOrder(ReplayOne(s, at, op).value, at + 1, ops[1..], x, y);
    }
  }

  ghost predicate AllInserts(ops: seq<Op>) {
    forall i :: 0 <= i < |ops| ==> ops[i].InsertBlock?
  }

  lemma {:induction false} PageKeepsOrder(s: State, ops: seq<Op>, x: BlockId, y: BlockId)
    requires Distinct(s.forest) && AllInserts(ops) && Limits.Apply(s, ops).Ok? && StandsBefore(Flatten(s.forest, None), x, y)
    ensures var g := Limits.Apply(s, ops).value.forest; Distinct(g) && StandsBefore(Flatten(g, None), x, y)
    decreases |ops|
  {
    if ops != [] {
      var op := ops[0];
      InsertSplices(s.forest, op);
      SpliceKeepsOrder(Flatten(s.forest, None), PlaceIndex(s.forest, op.parent, op.after), Block(op.id, op.parent, op.body), x, y);
      PageKeepsOrder(Step(s, op).value, ops[1..], x, y);
    }
  }

  lemma OneOrder(g: Forest, rows: seq<Block>, x: BlockId, y: BlockId)
    requires Distinct(g) && StandsBefore(Flatten(g, None), x, y) && StandsBefore(rows, y, x)
    ensures rows != Flatten(g, None)
  {
    var s := Flatten(g, None);
    if rows == s {
      var i, j :| 0 <= i < j < |s| && s[i].id == x && s[j].id == y;
      var k, l :| 0 <= k < l < |s| && s[k].id == y && s[l].id == x;
      RowAt(s, g, i);
      RowAt(s, g, j);
      RowAt(s, g, k);
      RowAt(s, g, l);
      assert false;
    }
  }

  /** A bare insert into a page with rows goes first there and last here. */
  lemma BarePartsThem(s: Replayed, g: Forest, at: nat, op: Op)
    requires Alike(s, g) && Bare(op) && StepInsert(g, op).Ok? && s.rows != []
    ensures ReplayOne(s, at, op).Ok? && StandsBefore(ReplayOne(s, at, op).value.rows, s.rows[0].id, op.id)
    ensures StandsBefore(Flatten(StepInsert(g, op).value, None), op.id, s.rows[0].id) && Distinct(StepInsert(g, op).value)
  {
    var b := Block(op.id, op.parent, op.body);
    AcceptedReplays(s, g, at, op);
    InsertSplices(g, op);
    SlotIsPlace(s, g, op.parent, op.after);
    var mine, theirs := Splice(s.rows, |s.rows|, 0, [b]), Splice(s.rows, 0, 0, [b]);
    assert mine[0] == s.rows[0] && mine[|s.rows|] == b;
    assert theirs[0] == b && theirs[1] == s.rows[0];
  }

  // ----- Whole sequences

  lemma {:induction false} ReplayIsPageFrom(s: Replayed, g: Forest, page: PageId, title: string, at: nat, ops: seq<Op>)
    requires Alike(s, g) && AllInserts(ops) && Limits.Apply(State(page, title, g), ops).Ok?
    ensures ReplayFrom(s, at, ops) == Ok(Flatten(Limits.Apply(State(page, title, g), ops).value.forest, None)) <==>
              forall i :: 0 <= i < |ops| && Bare(ops[i]) ==> i == 0 && s.rows == []
    decreases |ops|
  {
    if ops != [] {
      var op, rest := ops[0], ops[1..];
      var h := StepInsert(g, op).value;
      if Bare(op) && s.rows != [] {
        BareEndsApart(s, g, page, title, at, ops);
      } else {
        PlacedKeepsAlike(s, g, at, op);
        var t := ReplayOne(s, at, op).value;
        ReplayIsPageFrom(t, h, page, title, at + 1, rest);
        assert forall i :: 0 <= i < |rest| ==> rest[i] == ops[i + 1];
        assert (forall i :: 0 <= i < |rest| ==> !Bare(rest[i])) <==> (forall i :: 0 < i < |ops| ==> !Bare(ops[i])) by {
          assert forall i :: 0 < i < |ops| ==> ops[i] == rest[i - 1];
        }
      }
    }
  }

  lemma BareEndsApart(s: Replayed, g: Forest, page: PageId, title: string, at: nat, ops: seq<Op>)
    requires Alike(s, g) && AllInserts(ops) && Limits.Apply(State(page, title, g), ops).Ok?
    requires ops != [] && Bare(ops[0]) && s.rows != []
    ensures ReplayFrom(s, at, ops) != Ok(Flatten(Limits.Apply(State(page, title, g), ops).value.forest, None))
  {
    var op, rest, y := ops[0], ops[1..], s.rows[0].id;
    BarePartsThem(s, g, at, op);
    ReplayKeepsOrder(ReplayOne(s, at, op).value, at + 1, rest, y, op.id);
    PageKeepsOrder(State(page, title, StepInsert(g, op).value), rest, op.id, y);
    var end := Limits.Apply(State(page, title, g), ops).value.forest;
    match ReplayFrom(s, at, ops)
    case Ok(rows) => OneOrder(end, rows, op.id, y);
    case Err(_) =>
  }

  /** Replaying the inserts a page accepts builds the page exactly when every insert but the
      first names a parent or a predecessor. */
  lemma ReplayIsPageExactly(page: PageId, title: string, ops: seq<Op>)
    requires AllInserts(ops) && Limits.Apply(State(page, title, Nil), ops).Ok?
    ensures ReplayFrom(Replayed([], []), 0, ops) == Ok(Flatten(Limits.Apply(State(page, title, Nil), ops).value.forest, None)) <==>
              forall i :: 0 < i < |ops| ==> ops[i].parent.Some? || ops[i].after.Some?
  {
    assert Alike(Replayed([], []), Nil);
    ReplayIsPageFrom(Replayed([], []), Nil, page, title, 0, ops);
    assert forall i :: 0 <= i < |ops| ==> (Bare(ops[i]) <==> !(ops[i].parent.Some? || ops[i].after.Some?));
  }

  /** Two top-level blocks, each inserted first: the page turns them round, the replay does not. */
  lemma SecondFirstBlock(page: PageId, title: string, body: Body)
    ensures var ops := [InsertBlock(1, None, None, body), InsertBlock(2, None, None, body)];
      && Limits.Apply(State(page, title, Nil), ops).Ok?
      && Flatten(Limits.Apply(State(page, title, Nil), ops).value.forest, None) == [Block(2, None, body), Block(1, None, body)]
      && ReplayFrom(Replayed([], []), 0, ops) == Ok([Block(1, None, body), Block(2, None, body)])
  {
    var a, b := InsertBlock(1, None, None, body), InsertBlock(2, None, None, body);
    var one := Node(1, body, Nil, Nil);
    assert Append(one, Nil) == Node(1, body, Nil, Append(Nil, Nil)) == one && Ids(one) == {1} + {} + {};
    assert Append(Node(2, body, Nil, Nil), one) == Node(2, body, Nil, Append(Nil, one)) == Node(2, body, Nil, one);
    assert StepInsert(Nil, a) == Ok(one) && StepInsert(one, b) == Ok(Node(2, body, Nil, one));
    assert [a, b][1..] == [b] && [b][1..] == [];
    assert Limits.Apply(State(page, title, one), [b]) == Ok(State(page, title, Node(2, body, Nil, one)));
    assert Flatten(one, None) == [Block(1, None, body)];
    assert Flatten(Node(2, body, Nil, one), None) == [Block(2, None, body)] + [] + [Block(1, None, body)];
    ReplaysTwo(a, b);
  }

  lemma ReplaysTwo(a: Op, b: Op)
    requires Bare(a) && Bare(b) && a.id != b.id
    ensures ReplayFrom(Replayed([], []), 0, [a, b]) == Ok([Block(a.id, None, a.body), Block(b.id, None, b.body)])
  {
    var x, y := Block(a.id, None, a.body), Block(b.id, None, b.body);
    assert Splice([], 0, 0, [x]) == [x] && [] + [x] == [x];
    assert Splice([x], 1, 0, [y]) == [x, y];
    assert [a, b][1..] == [b] && [b][1..] == [];
    assert ReplayOne(Replayed([], []), 0, a) == Ok(Replayed([x], [x]));
    assert ReplayOne(Replayed([x], [x]), 1, b) == Ok(Replayed([x, y], [x] + [y]));
    assert ReplayFrom(Replayed([x], [x]), 1, [b]) == ReplayFrom(Replayed([x, y], [x] + [y]), 2, []) == Ok([x, y]);
  }

  // ----- What cannot be replayed

  /** One of the first `n` ops inserts `x`. */
  ghost predicate Inserted(ops: seq<Op>, n: nat, x: BlockId) {
    exists j :: 0 <= j < n && j < |ops| && ops[j].InsertBlock? && ops[j].id == x
  }

  /** What keeps op `i` from being replayed, given that the ops before it were. */
  ghost function Trouble(ops: seq<Op>, i: nat): Option<ReplayError>
    requires i < |ops|
  {
    var op := ops[i];
    if !op.InsertBlock? then Some(UnsupportedType(i))
    else if Inserted(ops, i, op.id) then Some(DuplicateBlock(i, op.id))
    else if op.parent.Some? && !Inserted(ops, i, op.parent.value) then Some(ParentMissing(i, op.parent.value))
    else if op.after.Some? && !Inserted(ops, i, op.after.value) then Some(AfterMissing(i, op.after.value))
    else None
  }

  /** The ids of the rows are those inserted by the first `n` ops. */
  ghost predicate IdsInserted(s: Replayed, ops: seq<Op>, n: nat) {
    forall x :: (HasId(s.born, x) <==> Inserted(ops, n, x)) && (RowIndex(s.rows, x) < |s.rows| <==> Inserted(ops, n, x))
  }

  lemma HasIdIndex(rows: seq<Block>, x: BlockId)
    ensures RowIndex(rows, x) < |rows| <==> HasId(rows, x)
  {
  }

  lemma InsertedNext(s: Replayed, ops: seq<Op>, n: nat, k: nat, b: Block)
    requires IdsInserted(s, ops, n) && n < |ops| && ops[n].InsertBlock? && b.id == ops[n].id && k <= |s.rows|
    ensures IdsInserted(Replayed(Splice(s.rows, k, 0, [b]), s.born + [b]), ops, n + 1)
  {
    var rows, born := Splice(s.rows, k, 0, [b]), s.born + [b];
    forall x ensures (HasId(born, x) <==> Inserted(ops, n + 1, x)) && (RowIndex(rows, x) < |rows| <==> Inserted(ops, n + 1, x)) {
      HasIdIndex(s.rows, x);
      HasIdIndex(rows, x);
      IdsOneMore(s.rows, k, b, x);
      IdsOneMore(s.born, |s.born|, b, x);
      assert born == Splice(s.born, |s.born|, 0, [b]);
      assert Inserted(ops, n + 1, x) <==> Inserted(ops, n, x) || x == b.id;
    }
  }

  lemma IdsOneMore(rows: seq<Block>, k: nat, b: Block, x: BlockId)
    requires k <= |rows|
    ensures HasId(Splice(rows, k, 0, [b]), x) <==> HasId(rows, x) || x == b.id
  {
    var more := Splice(rows, k, 0, [b]);
    assert more[k] == b;
    if i :| 0 <= i < |rows| && rows[i].id == x {
      assert more[if i < k then i else i + 1] == rows[i];
    }
    if j :| 0 <= j < |more| && more[j].id == x {
      assert j != k ==> more[j] == rows[if j < k then j else j - 1];
    }
  }

  lemma {:induction false} ReplayFailsFrom(s: Replayed, ops: seq<Op>, n: nat, e: ReplayError)
    requires n <= |ops| && IdsInserted(s, ops, n)
    ensures ReplayFrom(s, n, ops[n..]) == Err(e) <==>
              exists i :: n <= i < |ops| && Trouble(ops, i) == Some(e) && forall j :: n <= j < i ==> Trouble(ops, j) == None
    decreases |ops| - n
  {
    if n < |ops| {
      var op := ops[n];
      assert ops[n..][0] == op && ops[n..][1..] == ops[n + 1..];
      match ReplayOne(s, n, op)
      case Err(f) => assert Trouble(ops, n) == Some(f);
      case Ok(t) =>
        assert Trouble(ops, n) == None;
        InsertedNext(s, ops, n, Slot(s, op.parent, op.after), Block(op.id, op.parent, op.body));
        ReplayFailsFrom(t, ops, n + 1, e);
    }
  }

  /** Replaying fails at the first op that is no insert, inserts a block again, or names a
      parent or a predecessor that no earlier op inserted; and not otherwise. */
  lemma ReplayFailsExactly(ops: seq<Op>, e: ReplayError)
    ensures ReplayFrom(Replayed([], []), 0, ops) == Err(e) <==>
              exists i :: 0 <= i < |ops| && Trouble(ops, i) == Some(e) && forall j :: 0 <= j < i ==> Trouble(ops, j) == None
  {
    ReplayFailsFrom(Replayed([], []), ops, 0, e);
    assert ops[0..] == ops;
  }
}
