// What a transformed op means.

module Merges {
  // Two concurrent ops, by what becomes of each character and each inserted text.

  import opened Sequences
  import opened Blocks
  import opened Transforms

  /** `o` deletes the character at `i`. */
  predicate Deletes(o: Edit, i: int) {
    o.kind == Delete && o.pos <= i < o.pos + o.len
  }

  /** The characters from `p` to `q` that neither deletes. */
  function Kept(a: Edit, b: Edit, s: Text, p: int, q: int): Text
    requires 0 <= p <= q <= |s|
    decreases q - p
  {
    if p == q then []
    else Kept(a, b, s, p, q - 1) + if Deletes(a, q - 1) || Deletes(b, q - 1) then [] else [s[q - 1]]
  }

  /** The text an insert still puts in: none strictly inside what the other deletes. */
  function Puts(o: Edit, other: Edit): Text {
    if o.kind == Insert && !(Deletes(other, o.pos) && other.pos < o.pos) then o.text else []
  }

  /** At one place the author first in order comes first; with one author the op that was there. */
  predicate ComesFirst(a: Edit, b: Edit) {
    a.pos < b.pos || (a.pos == b.pos && (a.kind == Delete || b.kind == Delete || Less(a.actor, b.actor)))
  }

  /** Both ops at once: what neither deletes, each insert where it stood. */
  function Merged(a: Edit, b: Edit, s: Text): Text
    requires InRange(a, |s|) && InRange(b, |s|)
  {
    var x, y := if ComesFirst(a, b) then a else b, if ComesFirst(a, b) then b else a;
    Kept(a, b, s, 0, x.pos) + Puts(x, y) + Kept(a, b, s, x.pos, y.pos) + Puts(y, x) + Kept(a, b, s, y.pos, |s|)
  }

  // ----- Stretches

  lemma {:induction false} KeptAll(a: Edit, b: Edit, s: Text, p: int, q: int)
    requires 0 <= p <= q <= |s| && forall i :: p <= i < q ==> !Deletes(a, i) && !Deletes(b, i)
    ensures Kept(a, b, s, p, q) == s[p..q]
    decreases q - p
  {
    if p < q {
      KeptAll(a, b, s, p, q - 1);
      assert s[p..q] == s[p..q - 1] + [s[q - 1]];
    }
  }

  lemma {:induction false} KeptNone(a: Edit, b: Edit, s: Text, p: int, q: int)
    requires 0 <= p <= q <= |s| && forall i :: p <= i < q ==> Deletes(a, i) || Deletes(b, i)
    ensures Kept(a, b, s, p, q) == []
    decreases q - p
  {
    if p < q {
      KeptNone(a, b, s, p, q - 1);
    }
  }

  lemma {:induction false} KeptJoins(a: Edit, b: Edit, s: Text, p: int, q: int, r: int)
    requires 0 <= p <= q <= r <= |s|
    ensures Kept(a, b, s, p, r) == Kept(a, b, s, p, q) + Kept(a, b, s, q, r)
    decreases r - q
  {
    if q < r {
      KeptJoins(a, b, s, p, q, r - 1);
    } else {
      assert Kept(a, b, s, p, q) + [] == Kept(a, b, s, p, q);
    }
  }

  /** With a stretch cut out of it. */
  lemma KeptAround(a: Edit, b: Edit, s: Text, p: int, q: int, r: int, u: int)
    requires 0 <= p <= q <= r <= u <= |s|
    requires forall i :: p <= i < u ==> (Deletes(a, i) || Deletes(b, i) <==> q <= i < r)
    ensures Kept(a, b, s, p, u) == s[p..q] + s[r..u]
  {
    KeptJoins(a, b, s, p, q, u);
    KeptJoins(a, b, s, q, r, u);
    KeptAll(a, b, s, p, q);
    KeptNone(a, b, s, q, r);
    KeptAll(a, b, s, r, u);
    assert [] + s[r..u] == s[r..u];
  }

  // ----- The pairs

  /** `s` without the stretch from `p` to `q`. */
  function Cut(s: Text, p: int, q: int): Text
    requires 0 <= p <= q <= |s|
  {
    s[..p] + s[q..]
  }

  lemma DeleteCuts(o: Edit, s: Text)
    requires InRange(o, |s|) && o.kind == Delete
    ensures Apply(o, s) == Cut(s, o.pos, o.pos + o.len)
  {
  }

  lemma CutTwice(s: Text, p: int, q: int, r: int, u: int, from: int, to: int)
    requires 0 <= p <= q <= r <= u <= |s| && from == r - (q - p) && to == u - (q - p)
    ensures Cut(Cut(s, r, u), p, q) == s[..p] + (s[q..r] + s[u..])
    ensures Cut(Cut(s, p, q), from, to) == s[..p] + (s[q..r] + s[u..])
  {
    var later, first := Cut(s, r, u), Cut(s, p, q);
    assert later[..p] == s[..p] && later[q..] == s[q..r] + s[u..];
    assert first[..from] == s[..p] + s[q..r];
    assert first[to..] == s[u..];
    Regroup(s[..p], s[q..r], s[u..]);
  }

  lemma KeptAroundOne(a: Edit, b: Edit, s: Text, p: int, q: int)
    requires 0 <= p <= q <= |s| && forall i :: 0 <= i < |s| ==> (Deletes(a, i) || Deletes(b, i) <==> p <= i < q)
    ensures Kept(a, b, s, 0, |s|) == s[..p] + s[q..]
  {
    KeptAround(a, b, s, 0, p, q, |s|);
    assert s[0..p] == s[..p] && s[q..|s|] == s[q..];
  }

  /** Kept with two stretches cut out. */
  lemma KeptAroundBoth(a: Edit, b: Edit, s: Text, p: int, q: int, r: int, u: int)
    requires 0 <= p <= q <= r <= u <= |s|
    requires forall i :: 0 <= i < |s| ==> (Deletes(a, i) || Deletes(b, i) <==> p <= i < q || r <= i < u)
    ensures Kept(a, b, s, 0, |s|) == s[..p] + (s[q..r] + s[u..])
  {
    KeptJoins(a, b, s, 0, q, |s|);
    KeptAround(a, b, s, 0, p, q, q);
    KeptAround(a, b, s, q, r, u, |s|);
    assert s[0..p] + s[q..q] == s[..p] && s[u..|s|] == s[u..];
  }

  /** A delete after a delete. */
  lemma BothCut(a: Edit, b: Edit, s: Text, p: int, q: int, from: int, to: int)
    requires InRange(a, |s|) && InRange(b, |s|) && a.kind == Delete && b.kind == Delete && p == b.pos && q == p + b.len
    requires from == Transform(a, b).pos && to == from + Transform(a, b).len
    ensures 0 <= p <= q <= |s| && 0 <= from <= to <= |s| - (q - p)
    ensures Apply(Transform(a, b), Apply(b, s)) == Cut(Cut(s, p, q), from, to)
  {
    var u := Cut(s, p, q);
    DeleteCuts(b, s);
    TransformInRange(a, b, s);
    assert Apply(b, s) == u;
    ThenCut(Transform(a, b), u, from, to);
  }

  lemma ThenCut(o: Edit, u: Text, from: int, to: int)
    requires InRange(o, |u|) && o.kind == Delete && from == o.pos && to == from + o.len
    ensures 0 <= from <= to <= |u| && Apply(o, u) == Cut(u, from, to)
  {
  }

  /** Where a delete goes on what another left. */
  lemma DeleteMoves(a: Edit, b: Edit)
    requires a.kind == Delete && b.kind == Delete && 0 <= a.len && 0 <= b.len
    ensures a.pos + a.len <= b.pos && !(b.pos + b.len <= a.pos) ==> Transform(a, b).pos == a.pos && Transform(a, b).len == a.len
    ensures b.pos + b.len <= a.pos ==> Transform(a, b).pos == a.pos - b.len && Transform(a, b).len == a.len
    ensures b.pos < a.pos + a.len && a.pos < b.pos + b.len ==>
      && Transform(a, b).pos == Min(a.pos, b.pos)
      && Transform(a, b).len == Max(a.pos + a.len, b.pos + b.len) - Min(a.pos, b.pos) - b.len
  {
  }

  lemma EarlierDeleted(a: Edit, b: Edit, s: Text, p: int, q: int, r: int, u: int)
    requires InRange(a, |s|) && InRange(b, |s|) && a.kind == Delete && b.kind == Delete
    requires p == a.pos && q == p + a.len && r == b.pos && u == r + b.len && q <= r && !(u <= p)
    ensures Apply(Transform(a, b), Apply(b, s)) == Kept(a, b, s, 0, |s|)
  {
    DeleteMoves(a, b);
    BothCut(a, b, s, r, u, p, q);
    CutTwice(s, p, q, r, u, r - (q - p), u - (q - p));
    KeptAroundBoth(a, b, s, p, q, r, u);
  }

  lemma LaterDeleted(a: Edit, b: Edit, s: Text, p: int, q: int, r: int, u: int, from: int, to: int)
    requires from == r - (q - p) && to == u - (q - p)
    requires InRange(a, |s|) && InRange(b, |s|) && a.kind == Delete && b.kind == Delete
    requires p == b.pos && q == p + b.len && r == a.pos && u == r + a.len && q <= r
    ensures Apply(Transform(a, b), Apply(b, s)) == Kept(a, b, s, 0, |s|)
  {
    DeleteMoves(a, b);
    BothCut(a, b, s, p, q, from, to);
    CutTwice(s, p, q, r, u, from, to);
    KeptAroundBoth(a, b, s, p, q, r, u);
  }

  lemma CutInside(s: Text, r: int, u: int, from: int, to: int, end: int)
    requires 0 <= from <= r <= u <= to <= |s| && end == to - (u - r)
    ensures Cut(Cut(s, r, u), from, end) == s[..from] + s[to..]
  {
    var t := Cut(s, r, u);
    assert t[..from] == s[..from];
    assert t[end..] == s[to..];
  }

  lemma DeletesOverlap(a: Edit, b: Edit, s: Text, r: int, u: int, from: int, to: int, end: int)
    requires InRange(a, |s|) && InRange(b, |s|) && a.kind == Delete && b.kind == Delete
    requires b.pos < a.pos + a.len && a.pos < b.pos + b.len
    requires r == b.pos && u == r + b.len && from == Min(a.pos, r) && to == Max(a.pos + a.len, u) && end == to - (u - r)
    ensures Apply(Transform(a, b), Apply(b, s)) == Kept(a, b, s, 0, |s|)
  {
    DeleteMoves(a, b);
    BothCut(a, b, s, r, u, from, end);
    CutInside(s, r, u, from, to, end);
    KeptAroundOne(a, b, s, from, to);
  }

  lemma TwoDeletes(a: Edit, b: Edit, s: Text)
    requires InRange(a, |s|) && InRange(b, |s|) && a.kind == Delete && b.kind == Delete
    ensures Apply(Transform(a, b), Apply(b, s)) == Kept(a, b, s, 0, |s|)
  {
    var p, q, r, u := a.pos, a.pos + a.len, b.pos, b.pos + b.len;
    if u <= p {
      LaterDeleted(a, b, s, r, u, p, q, p - b.len, q - b.len);
    } else if q <= r {
      EarlierDeleted(a, b, s, p, q, r, u);
    } else {
      DeletesOverlap(a, b, s, r, u, Min(p, r), Max(q, u), Max(q, u) - b.len);
    }
  }

  /** `x` put into `s` at `p`. */
  function Put(s: Text, p: int, x: Text): Text
    requires 0 <= p <= |s|
  {
    s[..p] + x + s[p..]
  }

  lemma InsertPuts(o: Edit, s: Text)
    requires InRange(o, |s|) && o.kind == Insert
    ensures Apply(o, s) == Put(s, o.pos, o.text)
  {
  }

  lemma PutTwice(s: Text, p: int, x: Text, q: int, y: Text, at: int)
    requires 0 <= p <= q <= |s| && at == q + |x|
    ensures Put(Put(s, q, y), p, x) == s[..p] + x + s[p..q] + y + s[q..]
    ensures Put(Put(s, p, x), at, y) == s[..p] + x + s[p..q] + y + s[q..]
  {
    var later, first := Put(s, q, y), Put(s, p, x);
    assert later[..p] == s[..p] && later[p..] == s[p..q] + y + s[q..];
    assert first[..at] == s[..p] + x + s[p..q] && first[at..] == s[q..];
  }

  /** An insert after an insert. */
  lemma BothPut(a: Edit, b: Edit, s: Text, at: int)
    requires InRange(a, |s|) && InRange(b, |s|) && a.kind == Insert && b.kind == Insert && at == Transform(a, b).pos
    ensures 0 <= at <= |s| + |b.text| && Apply(Transform(a, b), Apply(b, s)) == Put(Put(s, b.pos, b.text), at, a.text)
  {
    InsertPuts(b, s);
    TransformInRange(a, b, s);
    InsertPuts(Transform(a, b), Apply(b, s));
  }

  lemma MergedInserts(a: Edit, b: Edit, s: Text, x: Edit, y: Edit)
    requires InRange(a, |s|) && InRange(b, |s|) && a.kind == Insert && b.kind == Insert
    requires x == (if ComesFirst(a, b) then a else b) && y == if ComesFirst(a, b) then b else a
    ensures 0 <= x.pos <= y.pos <= |s|
    ensures Merged(a, b, s) == s[..x.pos] + x.text + s[x.pos..y.pos] + y.text + s[y.pos..]
  {
    KeptAll(a, b, s, 0, x.pos);
    KeptAll(a, b, s, x.pos, y.pos);
    KeptAll(a, b, s, y.pos, |s|);
    assert s[0..x.pos] == s[..x.pos] && s[y.pos..|s|] == s[y.pos..];
  }

  lemma TwoInserts(a: Edit, b: Edit, s: Text)
    requires InRange(a, |s|) && InRange(b, |s|) && a.kind == Insert && b.kind == Insert
    ensures Apply(Transform(a, b), Apply(b, s)) == Merged(a, b, s)
  {
    var at := Transform(a, b).pos;
    BothPut(a, b, s, at);
    if ComesFirst(a, b) {
      MergedInserts(a, b, s, a, b);
      PutTwice(s, a.pos, a.text, b.pos, b.text, b.pos + |a.text|);
    } else {
      MergedInserts(a, b, s, b, a);
      PutTwice(s, b.pos, b.text, a.pos, a.text, at);
    }
  }

  // ----- An insert and a delete

  /** The text an insert at `i` leaves with the stretch from `p` to `q` deleted. */
  function PutBeside(s: Text, i: int, x: Text, p: int, q: int): Text
    requires 0 <= i <= |s| && 0 <= p <= q <= |s|
  {
    if i <= p then s[..i] + x + s[i..p] + s[q..]
    else if q <= i then s[..p] + s[q..i] + x + s[i..]
    else s[..p] + s[q..]
  }

  lemma KeptBeside(a: Edit, b: Edit, s: Text, i: int, x: Text, p: int, q: int)
    requires 0 <= i <= |s| && 0 <= p <= q <= |s|
    requires forall k :: 0 <= k < |s| ==> (Deletes(a, k) || Deletes(b, k) <==> p <= k < q)
    ensures Kept(a, b, s, 0, i) + (if p < i < q then [] else x) + Kept(a, b, s, i, |s|) == PutBeside(s, i, x, p, q)
  {
    if i <= p {
      KeptAll(a, b, s, 0, i);
      KeptAround(a, b, s, i, p, q, |s|);
      assert s[0..i] == s[..i] && s[q..|s|] == s[q..];
    } else if q <= i {
      KeptAround(a, b, s, 0, p, q, i);
      KeptAll(a, b, s, i, |s|);
      assert s[0..p] == s[..p] && s[i..|s|] == s[i..];
    } else {
      KeptJoins(a, b, s, 0, i, |s|);
      KeptAroundOne(a, b, s, p, q);
      assert Kept(a, b, s, 0, i) + [] == Kept(a, b, s, 0, i);
    }
  }

  /** A delete puts nothing in, and its own place splits nothing. */
  lemma MergedMixed(a: Edit, b: Edit, s: Text, i: Edit, d: Edit, x: Text)
    requires InRange(a, |s|) && InRange(b, |s|) && i.kind == Insert && d.kind == Delete && x == Puts(i, d)
    requires (a == i && b == d) || (a == d && b == i)
    ensures Merged(a, b, s) == Kept(a, b, s, 0, i.pos) + x + Kept(a, b, s, i.pos, |s|)
  {
    if ComesFirst(a, b) == (a == i) {
      SplitBehind(a, b, s, i.pos, d.pos, x);
    } else {
      SplitBefore(a, b, s, d.pos, i.pos, x);
    }
  }

  lemma SplitBehind(a: Edit, b: Edit, s: Text, i: int, d: int, x: Text)
    requires 0 <= i <= d <= |s|
    ensures Kept(a, b, s, 0, i) + x + Kept(a, b, s, i, d) + [] + Kept(a, b, s, d, |s|) == Kept(a, b, s, 0, i) + x + Kept(a, b, s, i, |s|)
  {
    KeptJoins(a, b, s, i, d, |s|);
    var k := Kept(a, b, s, 0, i) + x;
    assert k + Kept(a, b, s, i, d) + [] == k + Kept(a, b, s, i, d);
    Regroup(k, Kept(a, b, s, i, d), Kept(a, b, s, d, |s|));
  }

  lemma SplitBefore(a: Edit, b: Edit, s: Text, d: int, i: int, x: Text)
    requires 0 <= d <= i <= |s|
    ensures Kept(a, b, s, 0, d) + [] + Kept(a, b, s, d, i) + x + Kept(a, b, s, i, |s|) == Kept(a, b, s, 0, i) + x + Kept(a, b, s, i, |s|)
  {
    KeptJoins(a, b, s, 0, d, i);
    assert Kept(a, b, s, 0, d) + [] == Kept(a, b, s, 0, d);
  }

  lemma PutIntoCut(s: Text, i: int, x: Text, p: int, q: int, at: int)
    requires 0 <= i <= |s| && 0 <= p <= q <= |s|
    ensures i <= p ==> Put(Cut(s, p, q), i, x) == PutBeside(s, i, x, p, q)
    ensures !(i <= p) && q <= i && at == i - (q - p) ==> Put(Cut(s, p, q), at, x) == PutBeside(s, i, x, p, q)
  {
    var t := Cut(s, p, q);
    if i <= p {
      assert t[..i] == s[..i] && t[i..] == s[i..p] + s[q..];
    } else if q <= i && at == i - (q - p) {
      assert t[..at] == s[..p] + s[q..i] && t[at..] == s[i..];
    }
  }

  lemma InsertAfterDelete(i: Edit, d: Edit, s: Text, p: int, q: int)
    requires InRange(i, |s|) && InRange(d, |s|) && i.kind == Insert && d.kind == Delete && p == d.pos && q == p + d.len
    ensures Apply(Transform(i, d), Apply(d, s)) == PutBeside(s, i.pos, i.text, p, q)
  {
    var t := Transform(i, d);
    DeleteCuts(d, s);
    TransformInRange(i, d, s);
    InsertPuts(t, Apply(d, s));
    PutIntoCut(s, i.pos, i.text, p, q, t.pos);
    if p < i.pos < q {
      PutNothing(Cut(s, p, q), p);
    }
  }

  lemma PutNothing(s: Text, p: int)
    requires 0 <= p <= |s|
    ensures Put(s, p, []) == s
  {
  }

  lemma CutAroundPut(s: Text, i: int, x: Text, p: int, q: int, from: int, to: int)
    requires 0 <= i <= |s| && 0 <= p <= q <= |s|
    requires from == (if i <= p then p + |x| else p) && to == (if i <= p || i < q then q + |x| else q)
    ensures 0 <= from <= to <= |s| + |x| && Cut(Put(s, i, x), from, to) == PutBeside(s, i, x, p, q)
  {
    var t := Put(s, i, x);
    if i <= p {
      assert t[..from] == s[..i] + x + s[i..p] && t[to..] == s[q..];
    } else if i < q {
      assert t[..from] == s[..p] && t[to..] == s[q..];
    } else {
      assert t[..from] == s[..p] && t[to..] == s[q..i] + x + s[i..];
      Regroup(s[..p], s[q..i], x);
      Regroup(s[..p], s[q..i] + x, s[i..]);
    }
  }

  lemma DeleteAfterInsert(d: Edit, i: Edit, s: Text, p: int, q: int)
    requires InRange(i, |s|) && InRange(d, |s|) && i.kind == Insert && d.kind == Delete && p == d.pos && q == p + d.len
    ensures Apply(Transform(d, i), Apply(i, s)) == PutBeside(s, i.pos, i.text, p, q)
  {
    var t := Transform(d, i);
    InsertPuts(i, s);
    TransformInRange(d, i, s);
    DeleteCuts(t, Apply(i, s));
    CutAroundPut(s, i.pos, i.text, p, q, t.pos, t.pos + t.len);
  }

  lemma Mixed(a: Edit, b: Edit, s: Text, i: Edit, d: Edit, p: int, q: int)
    requires InRange(a, |s|) && InRange(b, |s|) && i.kind == Insert && d.kind == Delete
    requires (a == i && b == d) || (a == d && b == i)
    requires p == d.pos && q == p + d.len
    ensures Merged(a, b, s) == PutBeside(s, i.pos, i.text, p, q)
  {
    MergedMixed(a, b, s, i, d, Puts(i, d));
    KeptBeside(a, b, s, i.pos, i.text, p, q);
  }

  /** A transformed op after the other leaves every character that neither deletes, and every
      inserted text in its place unless that lies strictly inside what the other deletes. */
  lemma TransformMerges(a: Edit, b: Edit, s: Text)
    requires InRange(a, |s|) && InRange(b, |s|)
    ensures Apply(Transform(a, b), Apply(b, s)) == Merged(a, b, s)
  {
    if a.kind == Insert && b.kind == Insert {
      TwoInserts(a, b, s);
    } else if a.kind == Insert {
      InsertMerges(a, b, s, b.pos, b.pos + b.len);
    } else if b.kind == Insert {
      DeleteMerges(a, b, s, a.pos, a.pos + a.len);
    } else {
      DeletesMerge(a, b, s);
    }
  }

  lemma InsertMerges(a: Edit, b: Edit, s: Text, p: int, q: int)
    requires InRange(a, |s|) && InRange(b, |s|) && a.kind == Insert && b.kind == Delete && p == b.pos && q == p + b.len
    ensures Apply(Transform(a, b), Apply(b, s)) == Merged(a, b, s)
  {
    Mixed(a, b, s, a, b, p, q);
    InsertAfterDelete(a, b, s, p, q);
  }

  lemma DeleteMerges(a: Edit, b: Edit, s: Text, p: int, q: int)
    requires InRange(a, |s|) && InRange(b, |s|) && a.kind == Delete && b.kind == Insert && p == a.pos && q == p + a.len
    ensures Apply(Transform(a, b), Apply(b, s)) == Merged(a, b, s)
  {
    Mixed(a, b, s, b, a, p, q);
    DeleteAfterInsert(a, b, s, p, q);
  }

  lemma DeletesMerge(a: Edit, b: Edit, s: Text)
    requires InRange(a, |s|) && InRange(b, |s|) && a.kind == Delete && b.kind == Delete
    ensures Apply(Transform(a, b), Apply(b, s)) == Merged(a, b, s)
  {
    TwoDeletes(a, b, s);
    MergedDeletes(a, b, s);
  }

  lemma MergedDeletes(a: Edit, b: Edit, s: Text)
    requires InRange(a, |s|) && InRange(b, |s|) && a.kind == Delete && b.kind == Delete
    ensures Merged(a, b, s) == Kept(a, b, s, 0, |s|)
  {
    var p, q := Min(a.pos, b.pos), Max(a.pos, b.pos);
    SplitBehind(a, b, s, p, q, []);
    KeptJoins(a, b, s, 0, p, |s|);
    assert Kept(a, b, s, 0, p) + [] == Kept(a, b, s, 0, p);
  }
}
