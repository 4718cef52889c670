// Rows to ops and back.

module Replays {
  // The paste compiler's back end: a block tree emitted as inserts, and inserts
  // replayed into a block tree.

  import opened Options
  import opened Blocks
  import opened Forests
  import opened ForestAlgebra
  import opened Operations
  import opened Positions
  import opened Outlines
  import Limits
  import opened CollabClient

  // ----- Emission

  /** The insert emitted for row `i`: after its previous sibling, if it has one. */
  function EmitRow(rows: seq<Block>, i: nat): Op
    requires i < |rows|
  {
    InsertBlock(rows[i].id, rows[i].parent, LastChild(rows[..i], rows[i].parent), rows[i].body)
  }

  function Emitted(rows: seq<Block>): (ops: seq<Op>) {
    seq(|rows|, i requires 0 <= i < |rows| => EmitRow(rows, i))
  }

  method Emit(rows: seq<Block>) returns (ops: seq<Op>)
    ensures ops == Emitted(rows)
  {
    var lastSibling: map<Option<BlockId>, BlockId> := map[];
    ops := [];
    var i := 0;
    while i < |rows|
      invariant 0 <= i <= |rows|
      invariant ops == Emitted(rows)[..i]
      invariant forall p :: (p in lastSibling <==> LastChild(rows[..i], p).Some?)
      invariant forall p :: p in lastSibling ==> LastChild(rows[..i], p) == Some(lastSibling[p])
    {
      var b := rows[i];
      var after := if b.parent in lastSibling then Some(lastSibling[b.parent]) else None;
      ops := ops + [InsertBlock(b.id, b.parent, after, b.body)];
      assert rows[..i + 1][..i] == rows[..i];
      lastSibling := lastSibling[b.parent := b.id];
      i := i + 1;
    }
  }

  // ----- Replay

  datatype ReplayError =
    | UnsupportedType(at: nat)
    | DuplicateBlock(at: nat, id: BlockId)
    | ParentMissing(at: nat, parent: BlockId)
    | AfterMissing(at: nat, after: BlockId)

  /** First row with this id; one past the end if there is none. */
  function RowIndex(rows: seq<Block>, id: BlockId): (i: nat)
    ensures i <= |rows|
    ensures i < |rows| ==> rows[i].id == id
    ensures forall k :: 0 <= k < i ==> rows[k].id != id
  {
    if rows == [] || rows[0].id == id then 0 else 1 + RowIndex(rows[1..], id)
  }

  /** First row from `k` on that is not below `anc`. */
  function SkipBelow(born: seq<Block>, rows: seq<Block>, k: nat, anc: BlockId): (e: nat)
    requires k <= |rows|
    ensures k <= e <= |rows|
    decreases |rows| - k
  {
    if k < |rows| && Descends(born, rows[k].id, anc) then SkipBelow(born, rows, k + 1, anc) else k
  }

  // Rows in document order and the same rows in the order they were inserted.
  datatype Replayed = Replayed(rows: seq<Block>, born: seq<Block>)

  /** After the subtree of `after`; right after `parent` for a first child; else at the end. */
  function Slot(s: Replayed, parent: Option<BlockId>, after: Option<BlockId>): (j: nat)
    requires after.Some? ==> RowIndex(s.rows, after.value) < |s.rows|
    ensures j <= |s.rows|
  {
    if after.Some? then SkipBelow(s.born, s.rows, RowIndex(s.rows, after.value) + 1, after.value)
    else if parent.Some? && RowIndex(s.rows, parent.value) < |s.rows| then RowIndex(s.rows, parent.value) + 1
    else |s.rows|
  }

  function ReplayOne(s: Replayed, at: nat, op: Op): Result<Replayed, ReplayError> {
    if !op.InsertBlock? then Err(UnsupportedType(at))
    else if HasId(s.born, op.id) then Err(DuplicateBlock(at, op.id))
    else if op.parent.Some? && !HasId(s.born, op.parent.value) then Err(ParentMissing(at, op.parent.value))
    else if op.after.Some? && RowIndex(s.rows, op.after.value) == |s.rows| then Err(AfterMissing(at, op.after.value))
    else
      var b := Block(op.id, op.parent, op.body);
      Ok(Replayed(Splice(s.rows, Slot(s, op.parent, op.after), 0, [b]), s.born + [b]))
  }

  function ReplayFrom(s: Replayed, at: nat, ops: seq<Op>): Result<seq<Block>, ReplayError>
    decreases |ops|
  {
    if ops == [] then Ok(s.rows)
    else match ReplayOne(s, at, ops[0])
      case Err(e) => Err(e)
      case Ok(t) => ReplayFrom(t, at + 1, ops[1..])
  }

  /** The id map knows exactly the rows inserted so far, each parent older than its child. */
  ghost predicate Tracks(byId: map<BlockId, Block>, born: seq<Block>) {
    && (forall x :: x in byId ==> HasId(born, x))
    && (forall k :: 0 <= k < |born| ==> born[k].id in byId && byId[born[k].id] == born[k])
    && (forall j, k :: 0 <= j < k < |born| ==> born[j].id != born[k].id)
    && (forall k :: 0 <= k < |born| && born[k].parent.Some? ==> HasId(born[..k], born[k].parent.value))
  }

  /** Rows born after `x` do not matter to its chain. */
  lemma {:induction false} DescendsFrom(born: seq<Block>, j: nat, k: nat, anc: BlockId)
    requires j < k <= |born|
    requires forall a, b :: 0 <= a < b < |born| ==> born[a].id != born[b].id
    ensures var p := born[j].parent;
      Descends(born[..k], born[j].id, anc) <==> p.Some? && (p.value == anc || Descends(born[..j], p.value, anc))
  {
    assert born[..k][..k - 1] == born[..k - 1];
    if j + 1 < k {
      DescendsFrom(born, j, k - 1, anc);
    }
  }

  lemma {:induction false} DescendsAbsent(born: seq<Block>, x: BlockId, anc: BlockId)
    requires !HasId(born, x)
    ensures !Descends(born, x, anc)
  {
    if born != [] {
      var n := |born| - 1;
      assert born[n].id != x;
      forall k | 0 <= k < n ensures born[..n][k].id != x {
        assert born[k].id != x;
      }
      DescendsAbsent(born[..n], x, anc);
    }
  }

  /** The loop over parents computes the chain walk; it ends because parents are older. */
  method DescendsLoop(byId: map<BlockId, Block>, id: BlockId, anc: BlockId, ghost born: seq<Block>) returns (below: bool)
    requires Tracks(byId, born)
    ensures below == Descends(born, id, anc)
  {
    var cur := None;
    ghost var k := 0;
    if id in byId {
      cur := byId[id].parent;
      k :| 0 <= k < |born| && born[k].id == id;
      DescendsFrom(born, k, |born|, anc);
      assert born[..|born|] == born;
    } else {
      TracksIds(byId, born);
      DescendsAbsent(born, id, anc);
    }
    while cur != None
      invariant 0 <= k <= |born|
      invariant cur.Some? ==> HasId(born[..k], cur.value)
      invariant Descends(born, id, anc) <==> cur.Some? && (cur.value == anc || Descends(born[..k], cur.value, anc))
      decreases if cur.Some? then k + 1 else 0
    {
      if cur.value == anc {
        return true;
      }
      ghost var j :| 0 <= j < k && born[..k][j].id == cur.value;
      assert born[j].id == cur.value;
      DescendsFrom(born, j, k, anc);
      cur := byId[cur.value].parent;
      k := j;
    }
    return false;
  }

  method FindInOrder(order: seq<BlockId>, id: BlockId, ghost rows: seq<Block>) returns (i: nat)
    requires order == IdsOf(rows)
    ensures i == RowIndex(rows, id)
  {
    i := 0;
    while i < |order| && order[i] != id
      invariant 0 <= i <= |order|
      invariant forall k :: 0 <= k < i ==> rows[k].id != id
    {
      i := i + 1;
    }
    ghost var j := RowIndex(rows, id);
    if i < |order| {
      assert rows[i].id == id;
    }
  }

  /** Where one insert goes, or why it cannot be replayed. */
  method FindSlot(byId: map<BlockId, Block>, order: seq<BlockId>, i: nat, op: Op, ghost s: Replayed)
    returns (at: nat, err: Option<ReplayError>)
    requires Tracks(byId, s.born) && order == IdsOf(s.rows)
    ensures match ReplayOne(s, i, op)
            case Err(e) => err == Some(e)
            case Ok(t) => err == None && op.InsertBlock? && op.id !in byId && at <= |order|
                          && (op.parent.Some? ==> op.parent.value in byId)
                          && t == Replayed(Splice(s.rows, at, 0, [Block(op.id, op.parent, op.body)]), s.born + [Block(op.id, op.parent, op.body)])
  {
    at, err := |order|, None;
    TracksIds(byId, s.born);
    if !op.InsertBlock? {
      return at, Some(UnsupportedType(i));
    }
    if op.id in byId {
      return at, Some(DuplicateBlock(i, op.id));
    }
    if op.parent.Some? && op.parent.value !in byId {
      return at, Some(ParentMissing(i, op.parent.value));
    }
    if op.after.Some? {
      var found := FindInOrder(order, op.after.value, s.rows);
      if found == |order| {
        return at, Some(AfterMissing(i, op.after.value));
      }
      at := SkipLoop(byId, order, found + 1, op.after.value, s.rows, s.born);
    } else if op.parent.Some? {
      var found := FindInOrder(order, op.parent.value, s.rows);
      if found < |order| {
        at := found + 1;
      }
    }
  }

  /** Replaying inserts with a map and a spliced id list computes `ReplayFrom`,
      errors included. */
  method Replay(ops: seq<Op>) returns (r: Result<seq<Block>, ReplayError>)
    ensures r == ReplayFrom(Replayed([], []), 0, ops)
  {
    var byId: map<BlockId, Block> := map[];
    var order: seq<BlockId> := [];
    ghost var s := Replayed([], []);
    var i := 0;
    while i < |ops|
      invariant 0 <= i <= |ops|
      invariant Tracks(byId, s.born) && order == IdsOf(s.rows) && SameRows(s)
      invariant ReplayFrom(s, i, ops[i..]) == ReplayFrom(Replayed([], []), 0, ops)
    {
      var op := ops[i];
      assert ops[i..][0] == op && ops[i..][1..] == ops[i + 1..];
      var at, err := FindSlot(byId, order, i, op, s);
      if err.Some? {
        return Err(err.value);
      }
      var b := Block(op.id, op.parent, op.body);
      IdsOfSplice(s.rows, at, 0, [b]);
      assert IdsOf([b]) == [op.id];
      order := Splice(order, at, 0, [op.id]);
      TracksNext(byId, s.born, b);
      SameRowsNext(s, at, b);
      byId := byId[op.id := b];
      s := Replayed(Splice(s.rows, at, 0, [b]), s.born + [b]);
      i := i + 1;
    }
    assert ops[i..] == [];
    var out := RowsInOrder(byId, order, s);
    return Ok(out);
  }

  ghost predicate SameRows(s: Replayed) {
    forall b :: b in s.rows <==> b in s.born
  }

  lemma SameRowsNext(s: Replayed, at: nat, b: Block)
    requires SameRows(s) && at <= |s.rows|
    ensures SameRows(Replayed(Splice(s.rows, at, 0, [b]), s.born + [b]))
  {
  }

  method RowsInOrder(byId: map<BlockId, Block>, order: seq<BlockId>, ghost s: Replayed) returns (out: seq<Block>)
    requires Tracks(byId, s.born) && SameRows(s) && order == IdsOf(s.rows)
    ensures out == s.rows
  {
    RowsFromMap(byId, s);
    out := [];
    var k := 0;
    while k < |order|
      invariant 0 <= k <= |order|
      invariant out == s.rows[..k]
    {
      assert s.rows[k] in s.rows;
      out := out + [byId[order[k]]];
      k := k + 1;
    }
    assert s.rows[..k] == s.rows;
  }

  lemma RowsFromMap(byId: map<BlockId, Block>, s: Replayed)
    requires Tracks(byId, s.born) && SameRows(s)
    ensures forall b :: b in s.rows ==> b.id in byId && byId[b.id] == b
  {
  }

  lemma TracksIds(byId: map<BlockId, Block>, born: seq<Block>)
    requires Tracks(byId, born)
    ensures forall x :: x in byId <==> HasId(born, x)
  {
  }

  lemma TracksNext(byId: map<BlockId, Block>, born: seq<Block>, b: Block)
    requires Tracks(byId, born) && b.id !in byId && (b.parent.Some? ==> b.parent.value in byId)
    ensures Tracks(byId[b.id := b], born + [b])
  {
    var next := born + [b];
    assert next[|born|] == b;
    forall x | x in byId[b.id := b] ensures HasId(next, x) {
      if x != b.id {
        var k :| 0 <= k < |born| && born[k].id == x;
        assert next[k].id == x;
      }
    }
    forall k | 0 <= k < |next| && next[k].parent.Some? ensures HasId(next[..k], next[k].parent.value) {
      assert next[..k] == born[..k];
      if k == |born| {
        assert born[..k] == born;
      }
    }
  }

  method SkipLoop(byId: map<BlockId, Block>, order: seq<BlockId>, from: nat, anc: BlockId, ghost rows: seq<Block>, ghost born: seq<Block>)
    returns (at: nat)
    requires Tracks(byId, born) && order == IdsOf(rows) && from <= |order|
    ensures at == SkipBelow(born, rows, from, anc)
  {
    at := from;
    while at < |order|
      invariant from <= at <= |order|
      invariant SkipBelow(born, rows, at, anc) == SkipBelow(born, rows, from, anc)
    {
      var below := DescendsLoop(byId, order[at], anc, born);
      if !below {
        return;
      }
      at := at + 1;
    }
  }

  // ----- The round trip

  lemma RowIndexOf(rows: seq<Block>, f: Forest, x: BlockId)
    requires Reads(rows, f) && x in Ids(f)
    ensures RowIndex(rows, x) == IndexOf(f, x) < |rows|
  {
    Located(f, None, x);
    var i := RowIndex(rows, x);
    assert i <= IndexOf(f, x);
    RowAt(rows, f, i);
  }

  lemma {:induction false} SkipsToEnd(rows: seq<Block>, f: Forest, k: nat, a: BlockId)
    requires Reads(rows, f) && a in Ids(f) && IndexOf(f, a) < k <= |rows|
    requires IndexOf(f, a) + Size(Subtree(f, a)) == |rows|
    ensures SkipBelow(rows, rows, k, a) == |rows|
    decreases |rows| - k
  {
    if k < |rows| {
      RowAt(rows, f, k);
      SubtreePositions(f, a, rows[k].id);
      DescendsIsBelow(rows, f, |rows|, rows[k].id, a);
      assert rows[..|rows|] == rows;
      SkipsToEnd(rows, f, k + 1, a);
    }
  }

  /** The slot of an emitted insert is the end. */
  lemma SlotIsEnd(rows: seq<Block>, n: nat, f: Forest)
    requires DepthFirst(rows) && n < |rows| && Reads(rows[..n], f)
    ensures var before, op := rows[..n], EmitRow(rows, n);
      && (op.after.Some? ==> RowIndex(before, op.after.value) < n)
      && Slot(Replayed(before, before), op.parent, op.after) == n
  {
    var before, op := rows[..n], EmitRow(rows, n);
    NextRowPlace(rows, n, f);
    if op.after.Some? {
      var a := op.after.value;
      RowIndexOf(before, f, a);
      SkipsToEnd(before, f, IndexOf(f, a) + 1, a);
    } else if op.parent.Some? {
      RowIndexOf(before, f, op.parent.value);
    }
  }

  lemma SameIds(rows: seq<Block>, f: Forest, x: BlockId)
    requires Reads(rows, f)
    ensures HasId(rows, x) <==> x in Ids(f)
  {
    if k :| 0 <= k < |rows| && rows[k].id == x {
      RowAt(rows, f, k);
    }
    if x in Ids(f) {
      Located(f, None, x);
      assert rows[IndexOf(f, x)].id == x;
    }
  }

  /** Each emitted insert is accepted and replayed at the end. */
  lemma ReplaysNext(rows: seq<Block>, n: nat)
    requires DepthFirst(rows) && n < |rows|
    ensures ReplayOne(Replayed(rows[..n], rows[..n]), n, EmitRow(rows, n)) == Ok(Replayed(rows[..n + 1], rows[..n + 1]))
  {
    var b := rows[n];
    DepthFirstPrefix(rows, n);
    var f := DepthFirstIsForest(rows[..n]);
    NextRowPlace(rows, n, f);
    SlotIsEnd(rows, n, f);
    SameIds(rows[..n], f, b.id);
    if b.parent.Some? {
      SameIds(rows[..n], f, b.parent.value);
    }
    RowReplayed(rows, n, Slot(Replayed(rows[..n], rows[..n]), b.parent, EmitRow(rows, n).after));
  }

  lemma RowReplayed(rows: seq<Block>, n: nat, at: nat)
    requires at == n < |rows|
    ensures Splice(rows[..n], at, 0, [rows[n]]) == rows[..n + 1] == rows[..n] + [rows[n]]
  {
  }

  /** Replaying what was emitted for a depth-first tree gives the tree back. */
  lemma {:induction false} ReplayUndoesEmit(rows: seq<Block>, n: nat)
    requires DepthFirst(rows) && n <= |rows|
    ensures ReplayFrom(Replayed(rows[..n], rows[..n]), n, Emitted(rows)[n..]) == Ok(rows)
    decreases |rows| - n
  {
    if n == |rows| {
      assert rows[..n] == rows;
    } else {
      ReplaysNext(rows, n);
      ReplayUndoesEmit(rows, n + 1);
      assert Emitted(rows)[n..][0] == EmitRow(rows, n);
      assert Emitted(rows)[n..][1..] == Emitted(rows)[n + 1..];
    }
  }

  // ----- The page model reads the same ops the same way

  /** Every parent is a container, and a list item's children suit it. */
  ghost predicate Grammatical(rows: seq<Block>) {
    forall i, j :: 0 <= i < |rows| && 0 <= j < |rows| && rows[j].parent == Some(rows[i].id) ==>
      && rows[i].body.kind.tag.IsContainer()
      && ChildAllowed(rows[i].body.kind.tag, rows[j].body.kind.tag)
  }

  lemma {:induction false} ApplySnoc(s: State, ops: seq<Op>, op: Op)
    requires Limits.Apply(s, ops).Ok?
    ensures Limits.Apply(s, ops + [op]) == Step(Limits.Apply(s, ops).value, op)
    decreases |ops|
  {
    if ops == [] {
      assert (ops + [op])[1..] == [];
    } else {
      assert (ops + [op])[1..] == ops[1..] + [op];
      ApplySnoc(Step(s, ops[0]).value, ops[1..], op);
    }
  }

  /** Applying the emitted inserts to an empty page is accepted throughout and
      builds the page whose rows are the tree's. */
  lemma NextAccepted(page: PageId, title: string, rows: seq<Block>, m: nat, g: Forest) returns (f: Forest)
    requires DepthFirst(rows) && Grammatical(rows) && m < |rows| && Reads(rows[..m], g)
    ensures Reads(rows[..m + 1], f) && Step(State(page, title, g), EmitRow(rows, m)) == Ok(State(page, title, f))
  {
    var b, op := rows[m], EmitRow(rows, m);
    NextRowInserts(rows, m, g);
    if b.parent.Some? {
      Located(g, None, b.parent.value);
      assert rows[IndexOf(g, b.parent.value)].id == b.parent.value;
    }
    PlaceErrorIsPlace(g, b.parent, op.after);
    f := Insert(g, b.parent, op.after, Node(b.id, b.body, Nil, Nil));
  }

  lemma {:induction false} PageAcceptsEmitted(page: PageId, title: string, rows: seq<Block>, n: nat) returns (f: Forest)
    requires DepthFirst(rows) && Grammatical(rows) && n <= |rows|
    ensures Reads(rows[..n], f)
    ensures Limits.Apply(State(page, title, Nil), Emitted(rows)[..n]) == Ok(State(page, title, f))
  {
    if n == 0 {
      return Nil;
    }
    var m := n - 1;
    var g := PageAcceptsEmitted(page, title, rows, m);
    var b, op := rows[m], EmitRow(rows, m);
    assert Emitted(rows)[..n] == Emitted(rows)[..m] + [op];
    ApplySnoc(State(page, title, Nil), Emitted(rows)[..m], op);
    f := NextAccepted(page, title, rows, m, g);
    assert rows[..m + 1] == rows[..n];
  }
}
