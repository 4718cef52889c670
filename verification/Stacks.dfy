// Two pending inserts.

module Stacks {
  // Both are moved over the same foreign op, though the second was typed on top of
  // the first: exactly when the client's text still comes out right.

  import opened Sequences
  import opened Blocks
  import opened Transforms
  import opened Simulations

  /** Two inserts of one author, the second typed on top of the first, and one of somebody else's. */
  predicate Stacked(p1: Edit, p2: Edit, f: Edit, s: Text) {
    && p1.kind == p2.kind == f.kind == Insert && p1.actor == p2.actor && f.actor != p1.actor
    && InRange(p1, |s|) && InRange(f, |s|) && InRange(p2, |s| + |p1.text|)
  }

  /** The author's text with the foreign op carried over both. */
  function MeantOf(p1: Edit, p2: Edit, f: Edit, s: Text): Text {
    Apply(Transform(Transform(f, p1), p2), Apply(p2, Apply(p1, s)))
  }

  /** The document with the foreign op and the first insert. */
  function Under(p1: Edit, f: Edit, s: Text): Text {
    Apply(Transform(p1, f), Apply(f, s))
  }

  /** `a` goes behind `b`, which stands at `at`. */
  predicate GoesBehind(a: Edit, b: Edit, at: int) {
    a.pos > at || (a.pos == at && !Less(a.actor, b.actor))
  }

  /** The foreign op goes behind the first insert, and only where it stood before
      does the second go behind it. */
  predicate Overtaken(p1: Edit, p2: Edit, f: Edit) {
    GoesBehind(f, p1, p1.pos) && GoesBehind(p2, f, f.pos) && !GoesBehind(p2, f, f.pos + |p1.text|)
  }

  lemma MeantInOrder(p1: Edit, p2: Edit, f: Edit, s: Text)
    requires Stacked(p1, p2, f, s)
    ensures MeantOf(p1, p2, f, s) == Apply(Transform(p2, Transform(f, p1)), Under(p1, f, s))
  {
    BothOrdersMeet(p1, f, s);
    TransformInRange(f, p1, s);
    BothOrdersMeet(p2, Transform(f, p1), Apply(p1, s));
  }

  lemma UnderLength(p1: Edit, f: Edit, s: Text)
    requires p1.kind == Insert && f.kind == Insert
    ensures |Under(p1, f, s)| == |s| + |p1.text| + |f.text|
  {
  }

  /** Where the second insert is moved to, and where it should be. */
  lemma MovedTwice(p1: Edit, p2: Edit, f: Edit, s: Text)
    requires Stacked(p1, p2, f, s)
    ensures if Overtaken(p1, p2, f) then Transform(p2, f) == p2.(pos := p2.pos + |f.text|) && Transform(p2, Transform(f, p1)) == p2
            else Transform(p2, f) == Transform(p2, Transform(f, p1))
  {
    LessIsTotal(f.actor, p1.actor);
  }

  /** Inserting `t` before or behind a stretch gives one text exactly when the two commute. */
  lemma BeforeOrBehind(s: Text, p: int, w: nat, t: Text)
    requires 0 <= p && p + w <= |s|
    ensures s[..p] + t + s[p..] == s[..p + w] + t + s[p + w..] <==> t + s[p..p + w] == s[p..p + w] + t
  {
    var a, seg, b := s[..p], s[p..p + w], s[p + w..];
    assert s[p..] == seg + b && s[..p + w] == a + seg;
    var x, y := a + t + (seg + b), (a + seg) + t + b;
    assert x == a + (t + seg) + b && y == a + (seg + t) + b;
    SameEnds(a, t + seg, seg + t, b);
  }

  lemma InsertedBeforeOrBehind(o: Edit, w: nat, s: Text)
    requires o.kind == Insert && 0 <= o.pos && o.pos + w <= |s|
    ensures Apply(o.(pos := o.pos + w), s) == Apply(o, s) <==> o.text + s[o.pos..o.pos + w] == s[o.pos..o.pos + w] + o.text
  {
    BeforeOrBehind(s, o.pos, w, o.text);
  }

  /** The text behind the second insert, as long as the foreign one. */
  function Stretch(p1: Edit, p2: Edit, f: Edit, s: Text): Text
    requires Stacked(p1, p2, f, s)
  {
    UnderLength(p1, f, s);
    Under(p1, f, s)[p2.pos..p2.pos + |f.text|]
  }

  /** Moving both over the foreign op gives the document with all three, unless the second
      is overtaken and does not commute with the stretch it is moved over. */
  lemma MovedAlikeExactly(p1: Edit, p2: Edit, f: Edit, s: Text)
    requires Stacked(p1, p2, f, s)
    ensures Apply(Transform(p2, f), Under(p1, f, s)) == MeantOf(p1, p2, f, s) <==>
      (Overtaken(p1, p2, f) ==> p2.text + Stretch(p1, p2, f, s) == Stretch(p1, p2, f, s) + p2.text)
  {
    UnderLength(p1, f, s);
    MeantInOrder(p1, p2, f, s);
    MovedTwice(p1, p2, f, s);
    if Overtaken(p1, p2, f) {
      InsertedBeforeOrBehind(p2, |f.text|, Under(p1, f, s));
    }
  }

  lemma TwoUndone(p1: Edit, p2: Edit, s: Text)
    requires p1.kind == p2.kind == Insert && InRange(p1, |s|) && InRange(p2, |s| + |p1.text|)
    ensures UndoAll(Apply(p2, Apply(p1, s)), [p1, p2]) == s
  {
    var t := Apply(p1, s);
    RollbackExactness(p2, t);
    RollbackExactness(p1, s);
    assert [p1, p2][..1] == [p1] && [p1][..0] == [];
    assert UndoAll(Apply(p2, t), [p1, p2]) == UndoAll(t, [p1]) == UndoAll(s, []);
  }

  /** The client's text after a foreign insert under two of its own. */
  lemma ConfirmUnderTwo(c: Client, p1: Edit, p2: Edit, f: Edit, s: Text)
    requires Stacked(p1, p2, f, s) && c.pending == [p1, p2] && f.id != p1.id && c.text == Apply(p2, Apply(p1, s))
    ensures Confirm(c, f, true).text == Apply(Transform(p2, f), Under(p1, f, s))
  {
    TwoUndone(p1, p2, s);
    var m1, m2 := Transform(p1, f), Transform(p2, f);
    assert MovedAll([p1, p2], f, true) == [m1, m2];
    assert [m1, m2][1..] == [m2] && [m2][1..] == [];
    assert ApplyAll([m1, m2], Apply(f, s)) == ApplyAll([m2], Apply(m1, Apply(f, s))) == ApplyAll([], Apply(m2, Under(p1, f, s)));
  }

  /** A foreign insert leaves a client with two inserts pending on the text it should
      have, exactly unless the second is overtaken and does not commute. */
  lemma ConfirmUnderTwoExactly(c: Client, p1: Edit, p2: Edit, f: Edit, s: Text)
    requires Stacked(p1, p2, f, s) && c.pending == [p1, p2] && f.id != p1.id && c.text == Apply(p2, Apply(p1, s))
    ensures Confirm(c, f, true).text == MeantOf(p1, p2, f, s) <==>
      (Overtaken(p1, p2, f) ==> p2.text + Stretch(p1, p2, f, s) == Stretch(p1, p2, f, s) + p2.text)
  {
    ConfirmUnderTwo(c, p1, p2, f, s);
    MovedAlikeExactly(p1, p2, f, s);
  }
}
