// Rolling back one delete.

module Deletes {
  // A client undoes its pending delete against the text after it, takes a foreign
  // op, and deletes again: exactly when the document comes out right.

  import opened Blocks
  import opened Transforms

  /** What undoing `p` against the text after it leaves. */
  function Undone(p: Edit, s: Text): Text {
    var t := Apply(p, s);
    Apply(Invert(p, t), t)
  }

  /** How many bytes the text behind a delete is too short to be mistaken for it. */
  function Short(p: Edit, s: Text): int {
    p.pos + 2 * p.len - |s|
  }

  /** Each byte from `e` to `q` is there again `g` later. */
  predicate Repeats(s: Text, e: int, q: int, g: int)
    requires 0 <= e && 0 <= g
  {
    q + g <= |s| && forall i :: e <= i < q ==> s[i] == s[i + g]
  }

  lemma RepeatsMeansSlices(s: Text, e: int, q: int, g: int, x: Text)
    requires 0 <= e <= q && 0 <= g && q + g <= |s| && x == s[e + g..q + g]
    ensures Repeats(s, e, q, g) <==> s[e..q] == x
  {
    if s[e..q] == x {
      forall i | e <= i < q ensures s[i] == s[i + g] {
        assert s[e..q][i - e] == x[i - e];
      }
    }
  }

  /** The foreign `op` does not expose what undoing the delete `p` got wrong: enough
      text follows the delete; or none does and `op` adds nothing at the end; or `op`
      deletes all that follows from inside the delete on, or from where the text
      before repeats itself. */
  predicate Survives(p: Edit, op: Edit, s: Text)
    requires p.kind == Delete && InRange(p, |s|) && InRange(op, |s|)
  {
    var e, g, q := p.pos + p.len, Short(p, s), op.pos;
    || g <= 0
    || (e == |s| && (op.kind == Delete || q < e || op.text == []))
    || (op.kind == Delete && q + op.len == |s| && (q <= e || Repeats(s, e, q, g)))
  }

  /** The text the delete and `op` should give. */
  function Meant(p: Edit, op: Edit, s: Text): Text {
    Apply(Transform(p, op), Apply(op, s))
  }

  /** The text they do give. */
  function Redone(p: Edit, op: Edit, s: Text): Text {
    Apply(Transform(p, op), Apply(op, Undone(p, s)))
  }

  lemma MeantOtherwise(p: Edit, op: Edit, s: Text)
    requires p.kind == Delete && InRange(p, |s|) && InRange(op, |s|)
    ensures Meant(p, op, s) == Apply(Transform(op, p), Apply(p, s))
  {
    BothOrdersMeet(p, op, s);
  }

  lemma UndoneLong(p: Edit, s: Text)
    requires p.kind == Delete && InRange(p, |s|) && Short(p, s) <= 0
    ensures |Undone(p, s)| == |s| && Apply(p, Undone(p, s)) == Apply(p, s)
  {
  }

  /** What follows a short delete is doubled. */
  lemma UndoneShort(p: Edit, s: Text)
    requires p.kind == Delete && InRange(p, |s|) && Short(p, s) > 0
    ensures Undone(p, s) == s[..p.pos] + s[p.pos + p.len..] + s[p.pos + p.len..]
  {
    var t := Apply(p, s);
    assert t[p.pos..] == s[p.pos + p.len..];
  }

  lemma ApplyLength(o: Edit, s: Text)
    ensures var at := Clamp(o.pos, 0, |s|);
      |Apply(o, s)| == if o.kind == Insert then |s| + |o.text| else |s| - (Clamp(at + o.len, at, |s|) - at)
  {
  }

  lemma Lengths(p: Edit, op: Edit, s: Text)
    requires p.kind == Delete && InRange(p, |s|) && InRange(op, |s|) && Short(p, s) > 0
    ensures |Undone(p, s)| == |s| - Short(p, s)
  {
    UndoneShort(p, s);
  }

  lemma InsertExposes(p: Edit, op: Edit, s: Text)
    requires p.kind == Delete && InRange(p, |s|) && InRange(op, |s|) && Short(p, s) > 0
    requires op.kind == Insert && !Survives(p, op, s)
    ensures |Redone(p, op, s)| != |Meant(p, op, s)|
  {
    Lengths(p, op, s);
    var u, m := Undone(p, s), Transform(p, op);
    ApplyLength(op, s);
    ApplyLength(op, u);
    ApplyLength(m, Apply(op, s));
    ApplyLength(m, Apply(op, u));
  }

  lemma CutLength(o: Edit, s: Text)
    requires o.kind == Delete && 0 <= o.pos && 0 <= o.len
    ensures |Apply(o, s)| == |s| - (Min(o.pos + o.len, |s|) - Min(o.pos, |s|))
  {
  }

  lemma DeleteInsideExposes(p: Edit, op: Edit, s: Text)
    requires p.kind == Delete && InRange(p, |s|) && InRange(op, |s|) && Short(p, s) > 0
    requires op.kind == Delete && p.pos + p.len < |s|
    requires p.pos <= op.pos < p.pos + p.len && op.pos + op.len < |s|
    ensures |Redone(p, op, s)| != |Meant(p, op, s)|
  {
    Lengths(p, op, s);
    var u, m := Undone(p, s), Transform(p, op);
    assert op.pos + op.len > p.pos ==> m == p.(len := p.len - (Min(p.pos + p.len, op.pos + op.len) - op.pos));
    CutLength(op, s);
    CutLength(op, u);
    CutLength(m, Apply(op, s));
    CutLength(m, Apply(op, u));
  }

  lemma DeleteBeforeExposes(p: Edit, op: Edit, s: Text)
    requires p.kind == Delete && InRange(p, |s|) && InRange(op, |s|) && Short(p, s) > 0
    requires op.kind == Delete && p.pos + p.len < |s|
    requires op.pos < p.pos && op.pos + op.len < |s|
    ensures |Redone(p, op, s)| != |Meant(p, op, s)|
  {
    Lengths(p, op, s);
    var u, m := Undone(p, s), Transform(p, op);
    CutLength(op, s);
    CutLength(op, u);
    CutLength(m, Apply(op, s));
    CutLength(m, Apply(op, u));
  }

  lemma DeleteAfterExposes(p: Edit, op: Edit, s: Text)
    requires p.kind == Delete && InRange(p, |s|) && InRange(op, |s|) && Short(p, s) > 0
    requires op.kind == Delete && p.pos + p.len < |s|
    requires op.pos >= p.pos + p.len && p.len > 0
    requires op.pos + op.len < |s| || (op.pos > p.pos + p.len && op.pos + Short(p, s) > |s|)
    ensures |Redone(p, op, s)| != |Meant(p, op, s)|
  {
    Lengths(p, op, s);
    var u, m := Undone(p, s), Transform(p, op);
    assert m == p;
    CutLength(op, s);
    CutLength(op, u);
    CutLength(m, Apply(op, s));
    CutLength(m, Apply(op, u));
  }

  lemma NothingToCut(o: Edit, s: Text)
    requires o.kind == Delete && (o.pos >= |s| || o.len == 0)
    ensures Apply(o, s) == s
  {
  }

  lemma DeleteAtTheEnd(p: Edit, op: Edit, s: Text)
    requires p.kind == Delete && InRange(p, |s|) && InRange(op, |s|) && p.pos + p.len == |s| && p.len > 0
    requires op.kind == Delete
    ensures Redone(p, op, s) == Meant(p, op, s)
  {
    MeantOtherwise(p, op, s);
    UndoneShort(p, s);
    var u, m := s[..p.pos], Transform(p, op);
    assert Undone(p, s) == u == Apply(p, s);
    ApplyLength(op, u);
    NothingToCut(m, Apply(op, u));
    DeletedFromEnd(p, op, u);
  }

  lemma DeletedFromEnd(p: Edit, op: Edit, u: Text)
    requires p.kind == Delete && op.kind == Delete && p.pos == |u| && 0 <= op.pos && 0 <= op.len
    requires op.pos + op.len <= p.pos + p.len
    ensures Apply(Transform(op, p), u) == Apply(op, u)
  {
  }

  lemma InsertAtTheEnd(p: Edit, op: Edit, s: Text)
    requires p.kind == Delete && InRange(p, |s|) && InRange(op, |s|) && p.pos + p.len == |s| && p.len > 0
    requires op.kind == Insert && (op.pos < |s| || op.text == [])
    ensures Redone(p, op, s) == Meant(p, op, s)
  {
    MeantOtherwise(p, op, s);
    UndoneShort(p, s);
    var u, m := s[..p.pos], Transform(p, op);
    assert Undone(p, s) == u == Apply(p, s);
    if op.pos <= p.pos {
      ApplyLength(op, u);
      NothingToCut(m, Apply(op, u));
      assert Transform(op, p) == op;
    } else {
      SwallowedAtEnd(p, op, u);
    }
  }

  lemma SwallowedAtEnd(p: Edit, op: Edit, u: Text)
    requires p.kind == Delete && op.kind == Insert && p.pos == |u| < op.pos <= p.pos + p.len
    requires op.pos < p.pos + p.len || op.text == []
    ensures Apply(Transform(p, op), Apply(op, u)) == u == Apply(Transform(op, p), u)
  {
    assert Apply(op, u) == u + op.text;
  }

  /** `op` deletes the rest of the text from inside the delete. */
  lemma RestDeleted(p: Edit, op: Edit, s: Text)
    requires p.kind == Delete && InRange(p, |s|) && InRange(op, |s|) && Short(p, s) > 0
    requires op.kind == Delete && op.pos + op.len == |s| && op.pos <= p.pos + p.len
    ensures Redone(p, op, s) == Meant(p, op, s)
  {
    UndoneShort(p, s);
  }

  /** `op` deletes the rest of the text from behind the delete. */
  lemma TailDeleted(p: Edit, op: Edit, s: Text)
    requires p.kind == Delete && InRange(p, |s|) && InRange(op, |s|) && Short(p, s) > 0
    requires op.kind == Delete && op.pos + op.len == |s| && op.pos > p.pos + p.len
    requires op.pos + Short(p, s) <= |s|
    ensures Redone(p, op, s) == Meant(p, op, s) <==> Repeats(s, p.pos + p.len, op.pos, Short(p, s))
  {
    var x := MeantTail(p, op, s);
    var y := RedoneTail(p, op, s);
    SamePrefix(s[..p.pos], x, y);
  }

  lemma MeantTail(p: Edit, op: Edit, s: Text) returns (x: Text)
    requires p.kind == Delete && InRange(p, |s|) && InRange(op, |s|)
    requires op.kind == Delete && op.pos + op.len == |s| && op.pos > p.pos + p.len
    ensures x == s[p.pos + p.len..op.pos] && Meant(p, op, s) == s[..p.pos] + x
  {
    TailCut(p, op, s);
    x := s[p.pos + p.len..op.pos];
  }

  lemma RedoneTail(p: Edit, op: Edit, s: Text) returns (y: Text)
    requires p.kind == Delete && InRange(p, |s|) && InRange(op, |s|) && Short(p, s) > 0
    requires op.kind == Delete && op.pos + op.len == |s| && op.pos > p.pos + p.len
    requires op.pos + Short(p, s) <= |s|
    ensures Redone(p, op, s) == s[..p.pos] + y
    ensures s[p.pos + p.len..op.pos] == y <==> Repeats(s, p.pos + p.len, op.pos, Short(p, s))
  {
    y := DoubledTail(p, s, op.pos);
    Lengths(p, op, s);
    TailCut(p, op, Undone(p, s));
  }

  lemma SamePrefix(a: Text, x: Text, y: Text)
    ensures a + x == a + y <==> x == y
  {
    assert (a + x)[|a|..] == x && (a + y)[|a|..] == y;
  }

  lemma DoubledTail(p: Edit, s: Text, q: int) returns (x: Text)
    requires p.kind == Delete && InRange(p, |s|) && Short(p, s) > 0 && p.pos + p.len <= q && q + Short(p, s) <= |s|
    ensures var e, u := p.pos + p.len, Undone(p, s);
      q <= |u| && u[..p.pos] == s[..p.pos] && x == u[e..q]
    ensures s[p.pos + p.len..q] == x <==> Repeats(s, p.pos + p.len, q, Short(p, s))
  {
    UndoneShort(p, s);
    var e, g := p.pos + p.len, Short(p, s);
    x := Undone(p, s)[e..q];
    assert x == s[e + g..q + g];
    RepeatsMeansSlices(s, e, q, g, x);
  }

  lemma TailCut(p: Edit, op: Edit, s: Text)
    requires p.kind == Delete && op.kind == Delete && 0 <= p.pos && 0 <= p.len && 0 <= op.len
    requires p.pos + p.len < op.pos <= |s| <= op.pos + op.len
    ensures Apply(Transform(p, op), Apply(op, s)) == s[..p.pos] + s[p.pos + p.len..op.pos]
  {
    assert Transform(p, op) == p;
    assert Apply(op, s) == s[..op.pos];
  }

  lemma ShortInsertExactly(p: Edit, op: Edit, s: Text)
    requires p.kind == Delete && InRange(p, |s|) && InRange(op, |s|) && Short(p, s) > 0 && op.kind == Insert
    ensures Redone(p, op, s) == Meant(p, op, s) <==> Survives(p, op, s)
  {
    if Survives(p, op, s) {
      InsertAtTheEnd(p, op, s);
    } else {
      InsertExposes(p, op, s);
    }
  }

  lemma ShortDeleteKept(p: Edit, op: Edit, s: Text)
    requires p.kind == Delete && InRange(p, |s|) && InRange(op, |s|) && Short(p, s) > 0 && op.kind == Delete
    requires Survives(p, op, s)
    ensures Redone(p, op, s) == Meant(p, op, s)
  {
    if p.pos + p.len == |s| {
      DeleteAtTheEnd(p, op, s);
    } else if op.pos <= p.pos + p.len {
      RestDeleted(p, op, s);
    } else {
      TailDeleted(p, op, s);
    }
  }

  lemma RestNotDeleted(p: Edit, op: Edit, s: Text)
    requires p.kind == Delete && InRange(p, |s|) && InRange(op, |s|) && Short(p, s) > 0 && op.kind == Delete
    requires p.pos + p.len < |s| && op.pos + op.len < |s|
    ensures Redone(p, op, s) != Meant(p, op, s)
  {
    if op.pos < p.pos {
      DeleteBeforeExposes(p, op, s);
    } else if op.pos < p.pos + p.len {
      DeleteInsideExposes(p, op, s);
    } else {
      DeleteAfterExposes(p, op, s);
    }
  }

  lemma ShortDeleteLost(p: Edit, op: Edit, s: Text)
    requires p.kind == Delete && InRange(p, |s|) && InRange(op, |s|) && Short(p, s) > 0 && op.kind == Delete
    requires !Survives(p, op, s)
    ensures Redone(p, op, s) != Meant(p, op, s)
  {
    if op.pos + op.len < |s| {
      RestNotDeleted(p, op, s);
    } else if op.pos + Short(p, s) <= |s| {
      TailDeleted(p, op, s);
    } else {
      DeleteAfterExposes(p, op, s);
    }
  }

  /** Undo, take the foreign op and delete again gives the document with both exactly
      when `op` survives. */
  lemma RedoneExactly(p: Edit, op: Edit, s: Text)
    requires p.kind == Delete && InRange(p, |s|) && InRange(op, |s|)
    ensures Redone(p, op, s) == Meant(p, op, s) <==> Survives(p, op, s)
  {
    if Short(p, s) <= 0 {
      LongRedone(p, op, s);
    } else if op.kind == Insert {
      ShortInsertExactly(p, op, s);
    } else if Survives(p, op, s) {
      ShortDeleteKept(p, op, s);
    } else {
      ShortDeleteLost(p, op, s);
    }
  }

  lemma LongRedone(p: Edit, op: Edit, s: Text)
    requires p.kind == Delete && InRange(p, |s|) && InRange(op, |s|) && Short(p, s) <= 0
    ensures Redone(p, op, s) == Meant(p, op, s)
  {
    UndoneLong(p, s);
    BothOrdersMeet(p, op, s);
    BothOrdersMeet(p, op, Undone(p, s));
  }
}
