// Rank over GF(2) by elimination.

module Gf2 {
  import opened Sequences

  // A row as the columns that hold a one.
  type Row = set<nat>

  function Xor(a: Row, b: Row): Row {
    (a - b) + (b - a)
  }

  lemma XorLaws(a: Row, b: Row, c: Row)
    ensures Xor(a, b) == Xor(b, a) && Xor(Xor(a, b), c) == Xor(a, Xor(b, c))
    ensures Xor(a, a) == {} && Xor(a, {}) == a && Xor(Xor(a, b), b) == a
  {
  }

  // ----- Span and independence

  /** Everything the rows add up to. */
  ghost function Span(rows: seq<Row>): set<Row> {
    if rows == [] then {{}}
    else
      var s := Span(rows[..|rows| - 1]);
      s + Shifted(s, rows[|rows| - 1])
  }

  ghost function Shifted(s: set<Row>, v: Row): set<Row> {
    set x | x in s :: Xor(x, v)
  }

  /** The sum of the picked rows. */
  function Combination(rows: seq<Row>, pick: seq<bool>): Row
    requires |pick| == |rows|
  {
    if rows == [] then {}
    else
      var n := |rows| - 1;
      var rest := Combination(rows[..n], pick[..n]);
      if pick[n] then Xor(rest, rows[n]) else rest
  }

  /** Only the empty choice of rows adds up to nothing. */
  ghost predicate Independent(rows: seq<Row>) {
    forall pick :: |pick| == |rows| && Combination(rows, pick) == {} ==> forall i :: 0 <= i < |pick| ==> !pick[i]
  }

  /** `part` is some of the rows, in order. */
  predicate Selection(part: seq<Row>, rows: seq<Row>) {
    part == []
    || (rows != []
        && ((part[|part| - 1] == rows[|rows| - 1] && Selection(part[..|part| - 1], rows[..|rows| - 1]))
            || Selection(part, rows[..|rows| - 1])))
  }

  /** `r` of the rows are independent, and no more are. */
  ghost predicate IsRank(rows: seq<Row>, r: nat) {
    && (exists part :: Selection(part, rows) && Independent(part) && |part| == r)
    && (forall part :: Selection(part, rows) && Independent(part) ==> |part| <= r)
  }

  function Pow2(n: nat): (p: nat)
    ensures p > 0
  {
    if n == 0 then 1 else 2 * Pow2(n - 1)
  }

  lemma {:induction false} Pow2Grows(m: nat, n: nat)
    requires m < n
    ensures Pow2(m) < Pow2(n)
    decreases n
  {
    if m < n - 1 {
      Pow2Grows(m, n - 1);
    }
  }

  // ----- The span is the least set closed under addition that holds the rows

  ghost predicate Additive(s: set<Row>) {
    {} in s && forall x, y :: x in s && y in s ==> Xor(x, y) in s
  }

  lemma {:induction false} SpanIsAdditive(rows: seq<Row>)
    ensures Additive(Span(rows))
  {
    if rows != [] {
      var s, v := Span(rows[..|rows| - 1]), rows[|rows| - 1];
      SpanIsAdditive(rows[..|rows| - 1]);
      assert Span(rows) == s + Shifted(s, v);
      forall x, y | x in Span(rows) && y in Span(rows) ensures Xor(x, y) in Span(rows) {
        var a := if x in s then x else Xor(x, v);
        var b := if y in s then y else Xor(y, v);
        InShifted(s, v, x);
        InShifted(s, v, y);
        XorFour(x, y, v);
        InShifted(s, v, Xor(x, y));
        assert a in s && b in s && Xor(a, b) in s;
      }
    } else {
      assert Xor({}, {}) == {};
    }
  }

  lemma InShifted(s: set<Row>, v: Row, x: Row)
    ensures x in Shifted(s, v) <==> Xor(x, v) in s
  {
    XorLaws(x, v, v);
    if x in Shifted(s, v) {
      var y :| y in s && x == Xor(y, v);
      XorLaws(y, v, v);
    }
  }

  lemma XorFour(x: Row, y: Row, v: Row)
    ensures Xor(Xor(x, v), y) == Xor(Xor(x, y), v) && Xor(x, Xor(y, v)) == Xor(Xor(x, y), v)
    ensures Xor(Xor(x, v), Xor(y, v)) == Xor(x, y)
  {
  }

  lemma {:induction false} SpanHolds(rows: seq<Row>, i: nat)
    requires i < |rows|
    ensures rows[i] in Span(rows)
  {
    var n := |rows| - 1;
    if i == n {
      SpanIsAdditive(rows[..n]);
      XorLaws(rows[n], rows[n], rows[n]);
      InShifted(Span(rows[..n]), rows[n], rows[n]);
    } else {
      SpanHolds(rows[..n], i);
    }
  }

  lemma {:induction false} SpanIsLeast(rows: seq<Row>, s: set<Row>)
    requires Additive(s) && forall i :: 0 <= i < |rows| ==> rows[i] in s
    ensures Span(rows) <= s
  {
    if rows != [] {
      var n := |rows| - 1;
      SpanIsLeast(rows[..n], s);
      forall x | x in Shifted(Span(rows[..n]), rows[n]) ensures x in s {
        var y :| y in Span(rows[..n]) && x == Xor(y, rows[n]);
      }
    }
  }

  /** Rows that make each other up span the same. */
  lemma SameSpan(rows: seq<Row>, other: seq<Row>)
    requires forall i :: 0 <= i < |rows| ==> rows[i] in Span(other)
    requires forall i :: 0 <= i < |other| ==> other[i] in Span(rows)
    ensures Span(rows) == Span(other)
  {
    SpanIsAdditive(rows);
    SpanIsAdditive(other);
    SpanIsLeast(rows, Span(other));
    SpanIsLeast(other, Span(rows));
  }

  // ----- Its size

  lemma {:induction false} ShiftedSize(s: set<Row>, v: Row)
    ensures |Shifted(s, v)| == |s|
  {
    if s != {} {
      var x :| x in s;
      ShiftedSize(s - {x}, v);
      forall y | y in s - {x} ensures Xor(y, v) != Xor(x, v) {
        XorLaws(x, v, v);
        XorLaws(y, v, v);
      }
      assert Shifted(s, v) == Shifted(s - {x}, v) + {Xor(x, v)};
    }
  }

  /** A row outside the span doubles it; a row inside adds nothing. */
  lemma OneMoreRow(rows: seq<Row>, v: Row)
    ensures v in Span(rows) ==> Span(rows + [v]) == Span(rows)
    ensures v !in Span(rows) ==> |Span(rows + [v])| == 2 * |Span(rows)|
  {
    var s := Span(rows);
    assert (rows + [v])[..|rows|] == rows;
    SpanIsAdditive(rows);
    if v in s {
      forall x | x in Shifted(s, v) ensures x in s {
        InShifted(s, v, x);
        XorLaws(x, v, v);
      }
    } else {
      forall x | x in s ensures x !in Shifted(s, v) {
        InShifted(s, v, x);
        XorLaws(x, v, v);
        XorLaws(v, x, x);
        assert Xor(x, Xor(x, v)) == v;
      }
      ShiftedSize(s, v);
      assert s !! Shifted(s, v);
    }
  }

  lemma {:induction false} PickOf(rows: seq<Row>, x: Row) returns (pick: seq<bool>)
    requires x in Span(rows)
    ensures |pick| == |rows| && Combination(rows, pick) == x
  {
    if rows == [] {
      pick := [];
    } else {
      var n := |rows| - 1;
      var s := Span(rows[..n]);
      var y := if x in s then x else Xor(x, rows[n]);
      InShifted(s, rows[n], x);
      var rest := PickOf(rows[..n], y);
      pick := rest + [x !in s];
      assert pick[..n] == rest;
      XorLaws(x, rows[n], rows[n]);
    }
  }

  lemma IndependentInit(rows: seq<Row>, v: Row)
    requires Independent(rows + [v])
    ensures Independent(rows) && v !in Span(rows)
  {
    var all := rows + [v];
    assert all[..|rows|] == rows;
    forall pick | |pick| == |rows| && Combination(rows, pick) == {}
      ensures forall i :: 0 <= i < |pick| ==> !pick[i]
    {
      var more := pick + [false];
      assert more[..|rows|] == pick && Combination(all, more) == {};
      forall i | 0 <= i < |pick| ensures !pick[i] {
        assert !more[i];
      }
    }
    if v in Span(rows) {
      SpannedIsDependent(rows, v);
    }
  }

  lemma SpannedIsDependent(rows: seq<Row>, v: Row)
    requires v in Span(rows)
    ensures !Independent(rows + [v])
  {
    var all := rows + [v];
    var pick := PickOf(rows, v);
    var more := pick + [true];
    assert all[..|rows|] == rows && more[..|rows|] == pick;
    XorLaws(v, v, v);
    assert Combination(all, more) == {};
    assert more[|rows|];
  }

  lemma {:induction false} IndependentSpan(rows: seq<Row>)
    requires Independent(rows)
    ensures |Span(rows)| == Pow2(|rows|)
  {
    if rows != [] {
      var n := |rows| - 1;
      assert rows == rows[..n] + [rows[n]];
      IndependentInit(rows[..n], rows[n]);
      IndependentSpan(rows[..n]);
      OneMoreRow(rows[..n], rows[n]);
    }
  }

  lemma {:induction false} SelectionSpan(part: seq<Row>, rows: seq<Row>)
    requires Selection(part, rows)
    ensures Span(part) <= Span(rows)
  {
    if part == [] {
      SpanIsAdditive(rows);
    } else {
      var init := rows[..|rows| - 1];
      if Selection(part, init) {
        SelectionSpan(part, init);
      } else {
        var less := part[..|part| - 1];
        SelectionSpan(less, init);
        forall x | x in Span(part) ensures x in Span(rows) {
          InShifted(Span(less), part[|part| - 1], x);
          InShifted(Span(init), part[|part| - 1], x);
        }
      }
    }
  }

  lemma IndependentOneMore(rows: seq<Row>, v: Row)
    requires Independent(rows) && v !in Span(rows)
    ensures Independent(rows + [v])
  {
    var all := rows + [v];
    var n := |rows|;
    assert all[..n] == rows;
    forall pick | |pick| == |all| && Combination(all, pick) == {}
      ensures forall i :: 0 <= i < |pick| ==> !pick[i]
    {
      var rest := Combination(rows, pick[..n]);
      CombinationInSpan(rows, pick[..n]);
      XorLaws(rest, v, v);
      XorLaws(v, {}, {});
      assert Combination(all, pick) == if pick[n] then Xor(rest, v) else rest;
      assert !pick[n];
      assert forall i :: 0 <= i < n ==> pick[i] == pick[..n][i];
    }
  }

  lemma {:induction false} CombinationInSpan(rows: seq<Row>, pick: seq<bool>)
    requires |pick| == |rows|
    ensures Combination(rows, pick) in Span(rows)
  {
    if rows != [] {
      var n := |rows| - 1;
      CombinationInSpan(rows[..n], pick[..n]);
    }
  }

  /** Enough of the rows are independent to span all they span. */
  lemma {:induction false} Basis(rows: seq<Row>) returns (part: seq<Row>)
    ensures Selection(part, rows) && Independent(part) && Span(part) == Span(rows)
  {
    if rows == [] {
      part := [];
    } else {
      var n := |rows| - 1;
      var less := Basis(rows[..n]);
      assert rows == rows[..n] + [rows[n]];
      OneMoreRow(rows[..n], rows[n]);
      if rows[n] in Span(less) {
        part := less;
      } else {
        part := less + [rows[n]];
        assert part[..|less|] == less;
        IndependentOneMore(less, rows[n]);
      }
    }
  }

  /** Rows whose span has two to the `r` elements have rank `r`. */
  lemma RankFromSpan(rows: seq<Row>, r: nat)
    requires |Span(rows)| == Pow2(r)
    ensures IsRank(rows, r)
  {
    var part := Basis(rows);
    IndependentSpan(part);
    if |part| < r {
      Pow2Grows(|part|, r);
    } else if r < |part| {
      Pow2Grows(r, |part|);
    }
    forall other | Selection(other, rows) && Independent(other) ensures |other| <= r {
      SelectionSpan(other, rows);
      IndependentSpan(other);
      SubsetSize(Span(other), Span(rows));
      if r < |other| {
        Pow2Grows(r, |other|);
      }
    }
  }

  // ----- Elimination

  /** The pivot columns: each has a one in its own row and nowhere else. */
  ghost predicate Pivots(rs: seq<Row>, pivots: seq<nat>, col: nat) {
    && |pivots| <= |rs|
    && (forall k :: 0 <= k < |pivots| ==> pivots[k] < col && pivots[k] in rs[k])
    && (forall k, i :: 0 <= k < |pivots| && 0 <= i < |rs| && i != k ==> pivots[k] !in rs[i])
  }

  /** From row `rank` on, the columns before `col` are zero. */
  ghost predicate Cleared(rs: seq<Row>, rank: nat, col: nat) {
    forall i, c :: rank <= i < |rs| && c < col ==> c !in rs[i]
  }

  function Swapped(rs: seq<Row>, a: nat, b: nat): seq<Row>
    requires a < |rs| && b < |rs|
  {
    rs[a := rs[b]][b := rs[a]]
  }

  /** Row `i` after the pivot row has been added to it where column `col` needs it. */
  function Reduced(rs: seq<Row>, rank: nat, col: nat, i: nat): Row
    requires rank < |rs| && i < |rs|
  {
    if i != rank && col in rs[i] then Xor(rs[i], rs[rank]) else rs[i]
  }

  ghost predicate Eliminated(rs: seq<Row>, rank: nat, col: nat, out: seq<Row>)
    requires rank < |rs|
  {
    |out| == |rs| && forall i :: 0 <= i < |rs| ==> out[i] == Reduced(rs, rank, col, i)
  }

  lemma SwapKeepsSpan(rs: seq<Row>, a: nat, b: nat)
    requires a < |rs| && b < |rs|
    ensures Span(Swapped(rs, a, b)) == Span(rs)
  {
    var t := Swapped(rs, a, b);
    forall i | 0 <= i < |rs| ensures t[i] in Span(rs) {
      SpanHolds(rs, if i == b then a else if i == a then b else i);
    }
    forall i | 0 <= i < |rs| ensures rs[i] in Span(t) {
      SpanHolds(t, if i == b then a else if i == a then b else i);
    }
    SameSpan(t, rs);
  }

  lemma EliminateKeepsSpan(rs: seq<Row>, rank: nat, col: nat, out: seq<Row>)
    requires rank < |rs| && Eliminated(rs, rank, col, out)
    ensures Span(out) == Span(rs)
  {
    SpanIsAdditive(rs);
    SpanIsAdditive(out);
    SpanHolds(rs, rank);
    SpanHolds(out, rank);
    assert out[rank] == rs[rank];
    forall i | 0 <= i < |rs| ensures out[i] in Span(rs) && rs[i] in Span(out) {
      SpanHolds(rs, i);
      SpanHolds(out, i);
      XorLaws(rs[i], rs[rank], {});
      assert out[i] == Reduced(rs, rank, col, i);
    }
    SameSpan(out, rs);
  }

  /** One column done: it becomes the next pivot column. */
  lemma EliminateKeepsForm(rs: seq<Row>, pivots: seq<nat>, col: nat, out: seq<Row>)
    requires |pivots| < |rs| && Pivots(rs, pivots, col) && Cleared(rs, |pivots|, col)
    requires col in rs[|pivots|] && Eliminated(rs, |pivots|, col, out)
    ensures Pivots(out, pivots + [col], col + 1) && Cleared(out, |pivots| + 1, col + 1)
  {
  }

  lemma SwapKeepsForm(rs: seq<Row>, pivots: seq<nat>, col: nat, b: nat)
    requires |pivots| <= b < |rs| && Pivots(rs, pivots, col) && Cleared(rs, |pivots|, col)
    ensures Pivots(Swapped(rs, |pivots|, b), pivots, col) && Cleared(Swapped(rs, |pivots|, b), |pivots|, col)
  {
  }

  // ----- The result

  lemma {:induction false} PickedPivot(rs: seq<Row>, pivots: seq<nat>, col: nat, pick: seq<bool>, n: nat, k: nat)
    requires Pivots(rs, pivots, col) && n <= |pivots| && k < |pivots| && |pick| == n
    ensures pivots[k] in Combination(rs[..n], pick) <==> k < n && pick[k]
    decreases n
  {
    if n > 0 {
      assert rs[..n][..n - 1] == rs[..n - 1];
      PickedPivot(rs, pivots, col, pick[..n - 1], n - 1, k);
    }
  }

  /** The pivot rows are independent. */
  lemma PivotRowsIndependent(rs: seq<Row>, pivots: seq<nat>, col: nat)
    requires Pivots(rs, pivots, col)
    ensures Independent(rs[..|pivots|])
  {
    var n := |pivots|;
    forall pick | |pick| == n && Combination(rs[..n], pick) == {}
      ensures forall i :: 0 <= i < n ==> !pick[i]
    {
      forall k | 0 <= k < n ensures !pick[k] {
        PickedPivot(rs, pivots, col, pick, n, k);
      }
    }
  }

  lemma {:induction false} ZeroRowsAddNothing(rs: seq<Row>, n: nat)
    requires n <= |rs| && forall i :: n <= i < |rs| ==> rs[i] == {}
    ensures Span(rs) == Span(rs[..n])
    decreases |rs|
  {
    if n < |rs| {
      var init := rs[..|rs| - 1];
      ZeroRowsAddNothing(init, n);
      assert init[..n] == rs[..n];
      assert rs == init + [{}];
      SpanIsAdditive(init);
      OneMoreRow(init, {});
    } else {
      assert rs[..n] == rs;
    }
  }

  // ----- Only the first columns are looked at

  ghost function Kept(row: Row, numCols: nat): Row {
    set c | c in row && c < numCols
  }

  /** The rows as far as column `numCols`. */
  ghost function Front(rows: seq<Row>, numCols: nat): seq<Row> {
    seq(|rows|, i requires 0 <= i < |rows| => Kept(rows[i], numCols))
  }

  /** Rows without ones past the last column are their own front. */
  lemma FrontOfNarrow(rows: seq<Row>, numCols: nat)
    requires forall i, c :: 0 <= i < |rows| && c in rows[i] ==> c < numCols
    ensures Front(rows, numCols) == rows
  {
    forall i | 0 <= i < |rows| ensures Kept(rows[i], numCols) == rows[i] {
      assert forall c :: c in rows[i] ==> c < numCols;
    }
  }

  lemma FrontSwapped(rs: seq<Row>, a: nat, b: nat, numCols: nat)
    requires a < |rs| && b < |rs|
    ensures Front(Swapped(rs, a, b), numCols) == Swapped(Front(rs, numCols), a, b)
  {
  }

  lemma KeptXor(a: Row, b: Row, numCols: nat)
    ensures Kept(Xor(a, b), numCols) == Xor(Kept(a, numCols), Kept(b, numCols))
  {
    var x, y := Kept(a, numCols), Kept(b, numCols);
    assert forall c :: c in Xor(x, y) <==> c in Kept(Xor(a, b), numCols);
  }

  lemma FrontEliminated(rs: seq<Row>, rank: nat, col: nat, out: seq<Row>, numCols: nat)
    requires rank < |rs| && col < numCols && Eliminated(rs, rank, col, out)
    ensures Eliminated(Front(rs, numCols), rank, col, Front(out, numCols))
  {
    var f := Front(rs, numCols);
    forall i | 0 <= i < |rs| ensures Front(out, numCols)[i] == Reduced(f, rank, col, i) {
      assert out[i] == Reduced(rs, rank, col, i);
      KeptXor(rs[i], rs[rank], numCols);
    }
  }

  lemma FrontKeepsPivots(rs: seq<Row>, pivots: seq<nat>, col: nat, numCols: nat)
    requires Pivots(rs, pivots, col) && col <= numCols
    ensures Pivots(Front(rs, numCols), pivots, col)
  {
  }

  /** What elimination has reached with `col` columns done. */
  ghost predicate Reached(rows: seq<Row>, numCols: nat, rs: seq<Row>, pivots: seq<nat>, col: nat) {
    && col <= numCols && Pivots(rs, pivots, col) && Cleared(rs, |pivots|, col)
    && Span(Front(rs, numCols)) == Span(Front(rows, numCols))
  }

  /** With every column done, or a pivot in every row, the pivots count the rank. */
  lemma ReducedFormGivesRank(rows: seq<Row>, numCols: nat, rs: seq<Row>, pivots: seq<nat>, col: nat)
    requires Reached(rows, numCols, rs, pivots, col) && (col == numCols || |pivots| == |rs|)
    ensures |Span(Front(rows, numCols))| == Pow2(|pivots|) && IsRank(Front(rows, numCols), |pivots|)
  {
    var n, f := |pivots|, Front(rs, numCols);
    forall i | n <= i < |f| ensures f[i] == {} {
      assert f[i] == Kept(rs[i], numCols);
      assert forall c :: 0 <= c < numCols ==> c !in rs[i];
    }
    ZeroRowsAddNothing(f, n);
    FrontKeepsPivots(rs, pivots, col, numCols);
    PivotRowsIndependent(f, pivots, col);
    IndependentSpan(f[..n]);
    RankFromSpan(Front(rows, numCols), n);
  }

  /** The first row from `rank` on with a one in column `col`. */
  method FindPivot(rs: array<Row>, rank: nat, col: nat) returns (pivot: int)
    requires rank <= rs.Length
    ensures pivot == -1 ==> forall i :: rank <= i < rs.Length ==> col !in rs[i]
    ensures pivot != -1 ==> rank <= pivot < rs.Length && col in rs[pivot]
  {
    pivot := -1;
    var i := rank;
    while i < rs.Length
      invariant rank <= i <= rs.Length
      invariant forall k :: rank <= k < i ==> col !in rs[k]
    {
      if col in rs[i] {
        return i;
      }
      i := i + 1;
    }
  }

  /** Adds the pivot row to every other row with a one in its column. */
  method Eliminate(rs: array<Row>, rank: nat, col: nat)
    requires rank < rs.Length
    modifies rs
    ensures Eliminated(old(rs[..]), rank, col, rs[..])
  {
    ghost var was := rs[..];
    var i := 0;
    while i < rs.Length
      invariant 0 <= i <= rs.Length && rs[rank] == was[rank]
      invariant forall k :: 0 <= k < i ==> rs[k] == Reduced(was, rank, col, k)
      invariant forall k :: i <= k < rs.Length ==> rs[k] == was[k]
    {
      if i != rank && col in rs[i] {
        rs[i] := Xor(rs[i], rs[rank]);
      }
      i := i + 1;
    }
  }

  method SwapRows(rs: array<Row>, a: nat, b: nat)
    requires a < rs.Length && b < rs.Length
    modifies rs
    ensures rs[..] == Swapped(old(rs[..]), a, b)
  {
    rs[a], rs[b] := rs[b], rs[a];
  }

  lemma PivotTaken(rows: seq<Row>, numCols: nat, was: seq<Row>, pivots: seq<nat>, pivot: nat, col: nat, out: seq<Row>)
    requires Reached(rows, numCols, was, pivots, col) && col < numCols && |pivots| <= pivot < |was| && col in was[pivot]
    requires Eliminated(Swapped(was, |pivots|, pivot), |pivots|, col, out)
    ensures Reached(rows, numCols, out, pivots + [col], col + 1)
  {
    var swapped, rank := Swapped(was, |pivots|, pivot), |pivots|;
    SwapKeepsForm(was, pivots, col, pivot);
    EliminateKeepsForm(swapped, pivots, col, out);
    FrontSwapped(was, rank, pivot, numCols);
    SwapKeepsSpan(Front(was, numCols), rank, pivot);
    FrontEliminated(swapped, rank, col, out, numCols);
    EliminateKeepsSpan(Front(swapped, numCols), rank, col, Front(out, numCols));
  }

  /** Swaps the pivot row up and clears its column everywhere else. */
  method TakePivot(rs: array<Row>, rank: nat, pivot: nat, col: nat)
    requires rank <= pivot < rs.Length
    modifies rs
    ensures Eliminated(Swapped(old(rs[..]), rank, pivot), rank, col, rs[..])
  {
    SwapRows(rs, rank, pivot);
    Eliminate(rs, rank, col);
  }

  /** How many of the rows, as far as column `numCols`, are independent; the rows
      themselves are not touched. */
  method Gf2Rank(rows: seq<Row>, numCols: nat) returns (rank: nat)
    ensures IsRank(Front(rows, numCols), rank) && |Span(Front(rows, numCols))| == Pow2(rank)
  {
    var rs := new Row[|rows|](i requires 0 <= i < |rows| => rows[i]);
    assert rs[..] == rows;
    ghost var pivots: seq<nat> := [];
    rank := 0;
    var col := 0;
    while col < numCols && rank < rs.Length
      invariant 0 <= col <= numCols && rank == |pivots| && fresh(rs) && rs.Length == |rows|
      invariant Reached(rows, numCols, rs[..], pivots, col)
    {
      var pivot := FindPivot(rs, rank, col);
      if pivot != -1 {
        ghost var was := rs[..];
        TakePivot(rs, rank, pivot, col);
        PivotTaken(rows, numCols, was, pivots, pivot, col, rs[..]);
        pivots := pivots + [col];
        rank := rank + 1;
      } else {
        NoPivot(rows, numCols, rs[..], pivots, col);
      }
      col := col + 1;
    }
    ReducedFormGivesRank(rows, numCols, rs[..], pivots, col);
  }

  lemma NoPivot(rows: seq<Row>, numCols: nat, rs: seq<Row>, pivots: seq<nat>, col: nat)
    requires Reached(rows, numCols, rs, pivots, col) && col < numCols
    requires forall i :: |pivots| <= i < |rs| ==> col !in rs[i]
    ensures Reached(rows, numCols, rs, pivots, col + 1)
  {
  }
}
