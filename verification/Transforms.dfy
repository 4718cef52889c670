// Operational transform on byte offsets.

module Transforms {
  // Insertions and deletions, their inverses, and the inclusion transform that lets
  // concurrent ones meet.

  import opened Sequences
  import opened Blocks

  type Text = seq<Byte>

  datatype OpId = Typed(n: nat) | Undoing(id: OpId)

  datatype Kind = Insert | Delete

  // `text` is meaningful for an insert, `len` for a delete. `base` is how many
  // server ops the author had seen.
  datatype Edit = Edit(id: OpId, actor: Text, kind: Kind, pos: int, text: Text, len: int, base: nat)

  function Clamp(v: int, lo: int, hi: int): int {
    if v < lo then lo else if v > hi then hi else v
  }

  function Width(o: Edit): int {
    if o.kind == Insert then |o.text| else o.len
  }

  /** Runs the op, clamping its offsets into the text. */
  function Apply(o: Edit, s: Text): Text {
    var p := Clamp(o.pos, 0, |s|);
    match o.kind
    case Insert => s[..p] + o.text + s[p..]
    case Delete => s[..p] + s[Clamp(p + o.len, p, |s|)..]
  }

  function Invert(o: Edit, before: Text): Edit {
    match o.kind
    case Insert => Edit(Undoing(o.id), o.actor, Delete, o.pos, [], |o.text|, 0)
    case Delete =>
      var p := Clamp(o.pos, 0, |before|);
      Edit(Undoing(o.id), o.actor, Insert, o.pos, before[p..Clamp(p + o.len, p, |before|)], 0, 0)
  }

  function Min(a: int, b: int): int { if a < b then a else b }

  function Max(a: int, b: int): int { if a < b then b else a }

  /** `a` rewritten to apply after the concurrent `b`. */
  function Transform(a: Edit, b: Edit): Edit {
    if a.kind == Insert && b.kind == Insert then
      // Ties are broken by actor name, an order both sides can compute alone.
      if a.pos < b.pos || (a.pos == b.pos && Less(a.actor, b.actor)) then a
      else a.(pos := a.pos + |b.text|)
    else if a.kind == Insert then
      if a.pos <= b.pos then a
      else if a.pos >= b.pos + b.len then a.(pos := a.pos - b.len)
      else a.(pos := b.pos, text := [])
    else if b.kind == Insert then
      if b.pos <= a.pos then a.(pos := a.pos + |b.text|)
      else if b.pos < a.pos + a.len then a.(len := a.len + |b.text|)
      else a
    else
      var aEnd, bEnd := a.pos + a.len, b.pos + b.len;
      if bEnd <= a.pos then a.(pos := a.pos - b.len)
      else if b.pos >= aEnd then a
      else
        var len := a.len - (Min(aEnd, bEnd) - Max(a.pos, b.pos));
        a.(len := if len < 0 then 0 else len, pos := if b.pos < a.pos then b.pos else a.pos)
  }

  /** The op's range lies in a text of length `n`. */
  predicate InRange(o: Edit, n: nat) {
    0 <= o.pos && (if o.kind == Insert then o.pos <= n else 0 <= o.len && o.pos + o.len <= n)
  }

  // ----- Inverses

  /** Against the text before it, an inverse undoes the op. */
  lemma InverseUndoes(o: Edit, s: Text)
    requires InRange(o, |s|)
    ensures Apply(Invert(o, s), Apply(o, s)) == s
  {
  }

  /** Rollback hands the inverse the text after the op. That still undoes every
      insert, and a delete exactly when the text it removed is repeated right after it. */
  lemma RollbackExactness(o: Edit, s: Text)
    requires InRange(o, |s|)
    ensures Apply(Invert(o, Apply(o, s)), Apply(o, s)) == s <==>
            (o.kind == Delete ==> s[o.pos..o.pos + o.len] == s[o.pos + o.len..Clamp(o.pos + 2 * o.len, 0, |s|)])
  {
    var t := Apply(o, s);
    if o.kind == Insert {
      assert t[..o.pos] == s[..o.pos] && t[o.pos + |o.text|..] == s[o.pos..];
    } else {
      var p, e := o.pos, o.pos + o.len;
      var q := Clamp(p + o.len, p, |t|);
      assert t[p..] == s[e..];
      assert t[p..q] == s[e..Clamp(o.pos + 2 * o.len, 0, |s|)];
      assert Apply(Invert(o, t), t) == t[..p] + t[p..q] + t[p..];
      assert s == s[..p] + s[p..e] + s[e..];
      var r := t[..p] + t[p..q] + t[p..];
      if r == s {
        assert |t[p..q]| == o.len;
        assert r[p..e] == t[p..q];
      }
    }
  }

  // ----- Concurrent pairs

  /** Inserts at one position by one actor: the tie nothing breaks. */
  predicate Tied(a: Edit, b: Edit) {
    a.kind == Insert && b.kind == Insert && a.pos == b.pos && a.actor == b.actor
  }

  lemma TransformInRange(a: Edit, b: Edit, s: Text)
    requires InRange(a, |s|) && InRange(b, |s|)
    ensures InRange(Transform(a, b), |Apply(b, s)|)
  {
  }

  lemma TiedInserts(a: Edit, b: Edit, s: Text)
    requires InRange(a, |s|) && InRange(b, |s|) && Tied(a, b)
    ensures Apply(Transform(b, a), Apply(a, s)) == s[..a.pos] + a.text + b.text + s[a.pos..]
  {
    LessIsTotal(a.actor, b.actor);
    var p, sa := a.pos, Apply(a, s);
    assert sa[..p + |a.text|] == s[..p] + a.text;
    assert sa[p + |a.text|..] == s[p..];
  }

  /** Where offset `j` goes when `x` is pasted in at `p` before it. */
  lemma PasteSlices(s: Text, p: int, x: Text, j: int) returns (t: Text, k: int)
    requires 0 <= p <= j <= |s|
    ensures t == s[..p] + x + s[p..] && k == j + |x| <= |t|
    ensures t[..k] == s[..p] + x + s[p..j] && t[k..] == s[j..]
  {
    t, k := s[..p] + x + s[p..], j + |x|;
    assert t[k..] == s[p..][j - p..];
  }

  /** An offset `j` before where `x` is pasted in stays. */
  lemma PasteKeeps(s: Text, p: int, x: Text, j: int)
    requires 0 <= j <= p <= |s|
    ensures var t := s[..p] + x + s[p..]; t[..j] == s[..j] && t[j..] == s[j..p] + x + s[p..]
  {
  }

  lemma ApplyInsert(o: Edit, s: Text)
    requires o.kind == Insert && InRange(o, |s|)
    ensures Apply(o, s) == s[..o.pos] + o.text + s[o.pos..]
  {
  }

  lemma InsertThenLater(a: Edit, b: Edit, s: Text)
    requires InRange(a, |s|) && InRange(b, |s|) && a.kind == Insert && b.kind == Insert && a.pos <= b.pos
    ensures Apply(b.(pos := b.pos + |a.text|), Apply(a, s)) == (s[..a.pos] + a.text + s[a.pos..b.pos]) + b.text + s[b.pos..]
  {
    var t, k := PasteSlices(s, a.pos, a.text, b.pos);
    ApplyInsert(a, s);
    ApplyInsert(b.(pos := k), t);
  }

  lemma InsertThenEarlier(a: Edit, b: Edit, s: Text)
    requires InRange(a, |s|) && InRange(b, |s|) && a.kind == Insert && b.kind == Insert && a.pos <= b.pos
    ensures Apply(a, Apply(b, s)) == s[..a.pos] + a.text + (s[a.pos..b.pos] + b.text + s[b.pos..])
  {
    PasteKeeps(s, b.pos, b.text, a.pos);
    ApplyInsert(b, s);
    ApplyInsert(a, Apply(b, s));
  }

  lemma InsertsRegroup(x: Text, m: Text, y: Text, tail: Text)
    ensures (x + m) + y + tail == x + (m + y + tail)
  {
    Regroup(x, m, y);
    Regroup(x, m + y, tail);
  }

  lemma InsertInsert(a: Edit, b: Edit, s: Text)
    requires InRange(a, |s|) && InRange(b, |s|) && a.kind == Insert && b.kind == Insert
    requires a.pos < b.pos || (a.pos == b.pos && Less(a.actor, b.actor) && !Less(b.actor, a.actor))
    ensures Apply(Transform(b, a), Apply(a, s)) == Apply(Transform(a, b), Apply(b, s))
  {
    assert Transform(a, b) == a && Transform(b, a) == b.(pos := b.pos + |a.text|);
    InsertThenLater(a, b, s);
    InsertThenEarlier(a, b, s);
    InsertsRegroup(s[..a.pos] + a.text, s[a.pos..b.pos], b.text, s[b.pos..]);
  }

  lemma InsertThenCutBehind(a: Edit, b: Edit, s: Text)
    requires InRange(a, |s|) && InRange(b, |s|) && a.kind == Insert && b.kind == Delete && a.pos <= b.pos
    ensures Apply(b.(pos := b.pos + |a.text|), Apply(a, s)) == (s[..a.pos] + a.text + s[a.pos..b.pos]) + s[b.pos + b.len..]
  {
    ApplyInsert(a, s);
    var t, k := PasteSlices(s, a.pos, a.text, b.pos);
    var u, e := PasteSlices(s, a.pos, a.text, b.pos + b.len);
    assert e == k + b.len;
    ApplyDelete(b.(pos := k), t, e);
  }

  lemma ApplyDelete(o: Edit, s: Text, e: int)
    requires o.kind == Delete && InRange(o, |s|) && e == o.pos + o.len
    ensures Apply(o, s) == s[..o.pos] + s[e..]
  {
  }

  lemma InsertBeforeCut(a: Edit, b: Edit, s: Text)
    requires InRange(a, |s|) && InRange(b, |s|) && a.kind == Insert && b.kind == Delete && a.pos <= b.pos
    ensures Apply(a, Apply(b, s)) == s[..a.pos] + a.text + (s[a.pos..b.pos] + s[b.pos + b.len..])
  {
    var u := s[..b.pos] + s[b.pos + b.len..];
    ApplyDelete(b, s, b.pos + b.len);
    assert u[..a.pos] == s[..a.pos] && u[a.pos..] == s[a.pos..b.pos] + s[b.pos + b.len..];
    ApplyInsert(a, u);
  }

  lemma InsertBeforeDelete(a: Edit, b: Edit, s: Text)
    requires InRange(a, |s|) && InRange(b, |s|) && a.kind == Insert && b.kind == Delete
    requires a.pos <= b.pos
    ensures Apply(Transform(b, a), Apply(a, s)) == Apply(Transform(a, b), Apply(b, s))
  {
    assert Transform(a, b) == a && Transform(b, a) == b.(pos := b.pos + |a.text|);
    InsertThenCutBehind(a, b, s);
    InsertBeforeCut(a, b, s);
    Regroup(s[..a.pos] + a.text, s[a.pos..b.pos], s[b.pos + b.len..]);
  }

  /** Where offset `j` goes when [p, e) before it is cut out. */
  lemma CutSlices(s: Text, p: int, e: int, j: int) returns (k: int)
    requires 0 <= p <= e <= j <= |s|
    ensures k == j - (e - p) && 0 <= k <= |s[..p] + s[e..]|
    ensures (s[..p] + s[e..])[..k] == s[..p] + s[e..j] && (s[..p] + s[e..])[k..] == s[j..]
  {
    k := j - (e - p);
  }

  lemma InsertThenDelete(a: Edit, b: Edit, s: Text)
    requires InRange(a, |s|) && InRange(b, |s|) && a.kind == Insert && b.kind == Delete && a.pos >= b.pos + b.len
    ensures Apply(b, Apply(a, s)) == s[..b.pos] + (s[b.pos + b.len..a.pos] + a.text + s[a.pos..])
  {
    var t, e := Apply(a, s), b.pos + b.len;
    assert t[..b.pos] == s[..b.pos];
    assert t[e..] == s[e..a.pos] + a.text + s[a.pos..];
  }

  lemma DeleteThenInsert(a: Edit, b: Edit, s: Text)
    requires InRange(a, |s|) && InRange(b, |s|) && a.kind == Insert && b.kind == Delete && a.pos >= b.pos + b.len
    ensures Apply(a.(pos := a.pos - b.len), Apply(b, s)) == (s[..b.pos] + s[b.pos + b.len..a.pos]) + a.text + s[a.pos..]
  {
    var p := CutSlices(s, b.pos, b.pos + b.len, a.pos);
    assert Apply(b, s) == s[..b.pos] + s[b.pos + b.len..];
  }

  lemma InsertAfterDelete(a: Edit, b: Edit, s: Text)
    requires InRange(a, |s|) && InRange(b, |s|) && a.kind == Insert && b.kind == Delete
    requires a.pos > b.pos && a.pos >= b.pos + b.len
    ensures Apply(Transform(b, a), Apply(a, s)) == Apply(Transform(a, b), Apply(b, s))
  {
    assert Transform(b, a) == b && Transform(a, b) == a.(pos := a.pos - b.len);
    InsertThenDelete(a, b, s);
    DeleteThenInsert(a, b, s);
    Regroup(s[..b.pos], s[b.pos + b.len..a.pos] + a.text, s[a.pos..]);
    Regroup(s[..b.pos], s[b.pos + b.len..a.pos], a.text);
  }

  lemma InsertInsideDelete(a: Edit, b: Edit, s: Text)
    requires InRange(a, |s|) && InRange(b, |s|) && a.kind == Insert && b.kind == Delete
    requires b.pos < a.pos < b.pos + b.len
    ensures Apply(Transform(b, a), Apply(a, s)) == Apply(Transform(a, b), Apply(b, s))
  {
    var e := b.pos + b.len;
    var t, k := PasteSlices(s, a.pos, a.text, e);
    PasteKeeps(s, a.pos, a.text, b.pos);
    ApplyInsert(a, s);
    assert Transform(b, a) == b.(len := b.len + |a.text|);
    ApplyDelete(Transform(b, a), t, k);
    ApplyDelete(b, s, e);
    assert Transform(a, b) == a.(pos := b.pos, text := []);
    InsertsNothing(Transform(a, b), s[..b.pos] + s[e..]);
  }

  lemma InsertsNothing(o: Edit, s: Text)
    requires o.kind == Insert && o.text == [] && InRange(o, |s|)
    ensures Apply(o, s) == s
  {
  }

  lemma InsertDelete(a: Edit, b: Edit, s: Text)
    requires InRange(a, |s|) && InRange(b, |s|) && a.kind == Insert && b.kind == Delete
    ensures Apply(Transform(b, a), Apply(a, s)) == Apply(Transform(a, b), Apply(b, s))
  {
    if a.pos <= b.pos {
      InsertBeforeDelete(a, b, s);
    } else if a.pos >= b.pos + b.len {
      InsertAfterDelete(a, b, s);
    } else {
      InsertInsideDelete(a, b, s);
    }
  }

  lemma DeleteThenEarlier(a: Edit, b: Edit, s: Text)
    requires InRange(a, |s|) && InRange(b, |s|) && a.kind == Delete && b.kind == Delete && a.pos + a.len <= b.pos
    ensures Apply(a, Apply(b, s)) == s[..a.pos] + (s[a.pos + a.len..b.pos] + s[b.pos + b.len..])
  {
    var t, e := Apply(b, s), a.pos + a.len;
    assert t[..a.pos] == s[..a.pos];
    assert t[e..] == s[e..b.pos] + s[b.pos + b.len..];
  }

  lemma DeleteThenLater(a: Edit, b: Edit, s: Text)
    requires InRange(a, |s|) && InRange(b, |s|) && a.kind == Delete && b.kind == Delete && a.pos + a.len <= b.pos
    ensures Apply(b.(pos := b.pos - a.len), Apply(a, s)) == (s[..a.pos] + s[a.pos + a.len..b.pos]) + s[b.pos + b.len..]
  {
    var q := CutSlices(s, a.pos, a.pos + a.len, b.pos);
    var end := CutSlices(s, a.pos, a.pos + a.len, b.pos + b.len);
    assert end == q + b.len;
    ApplyDelete(a, s, a.pos + a.len);
    ApplyDelete(b.(pos := q), s[..a.pos] + s[a.pos + a.len..], end);
  }

  lemma ApartDeletesMeet(a: Edit, b: Edit, s: Text)
    requires InRange(a, |s|) && InRange(b, |s|) && a.kind == Delete && b.kind == Delete && a.pos + a.len <= b.pos
    ensures Apply(Transform(b, a), Apply(a, s)) == Apply(Transform(a, b), Apply(b, s))
  {
    assert Transform(a, b) == a;
    assert Transform(b, a) == b.(pos := b.pos - a.len);
    DeleteThenEarlier(a, b, s);
    DeleteThenLater(a, b, s);
    Regroup(s[..a.pos], s[a.pos + a.len..b.pos], s[b.pos + b.len..]);
  }

  /** One delete after an overlapping one leaves what neither takes. */
  lemma OverlapUnion(a: Edit, b: Edit, s: Text)
    requires InRange(a, |s|) && InRange(b, |s|) && a.kind == Delete && b.kind == Delete
    requires a.pos < b.pos + b.len && b.pos < a.pos + a.len
    ensures Apply(Transform(a, b), Apply(b, s)) == s[..Min(a.pos, b.pos)] + s[Max(a.pos + a.len, b.pos + b.len)..]
  {
    var t, u := Transform(a, b), Apply(b, s);
    assert u[..t.pos] == s[..Min(a.pos, b.pos)];
    assert u[t.pos + t.len..] == s[Max(a.pos + a.len, b.pos + b.len)..];
  }

  /** Both inserts of a tie land after the other, so the orders meet only if the texts commute. */
  lemma TiedMeet(a: Edit, b: Edit, s: Text)
    requires InRange(a, |s|) && InRange(b, |s|) && Tied(a, b)
    ensures Apply(Transform(b, a), Apply(a, s)) == Apply(Transform(a, b), Apply(b, s))
        <==> a.text + b.text == b.text + a.text
  {
    TiedInserts(a, b, s);
    TiedInserts(b, a, s);
    var p := a.pos;
    Regroup(s[..p], a.text, b.text);
    Regroup(s[..p], b.text, a.text);
    SameEnds(s[..p], a.text + b.text, b.text + a.text, s[p..]);
  }

  /** Both orders of applying two in-range ops meet in one text, exactly unless
      they are tied inserts whose texts do not commute. */
  lemma BothOrdersMeet(a: Edit, b: Edit, s: Text)
    requires InRange(a, |s|) && InRange(b, |s|)
    ensures Apply(Transform(b, a), Apply(a, s)) == Apply(Transform(a, b), Apply(b, s))
        <==> (Tied(a, b) ==> a.text + b.text == b.text + a.text)
  {
    LessIsTotal(a.actor, b.actor);
    if Tied(a, b) {
      TiedMeet(a, b, s);
    } else if a.kind == Insert && b.kind == Insert {
      if a.pos < b.pos || (a.pos == b.pos && Less(a.actor, b.actor)) {
        InsertInsert(a, b, s);
      } else {
        InsertInsert(b, a, s);
      }
    } else if a.kind == Insert {
      InsertDelete(a, b, s);
    } else if b.kind == Insert {
      InsertDelete(b, a, s);
    } else {
      DeletesMeet(a, b, s);
    }
  }

  lemma DeletesMeet(a: Edit, b: Edit, s: Text)
    requires InRange(a, |s|) && InRange(b, |s|) && a.kind == Delete && b.kind == Delete
    ensures Apply(Transform(b, a), Apply(a, s)) == Apply(Transform(a, b), Apply(b, s))
  {
    if a.pos + a.len <= b.pos {
      ApartDeletesMeet(a, b, s);
    } else if b.pos + b.len <= a.pos {
      ApartDeletesMeet(b, a, s);
    } else {
      OverlapUnion(a, b, s);
      OverlapUnion(b, a, s);
    }
  }

  // ----- Whole logs

  function ApplyAll(log: seq<Edit>, s: Text): Text {
    if log == [] then s else ApplyAll(log[1..], Apply(log[0], s))
  }

  /** `o` carried over the ops of `log`, one after another, as the server does. */
  function TransformOver(o: Edit, log: seq<Edit>): Edit
    decreases |log|
  {
    if log == [] then o else TransformOver(Transform(o, log[0]), log[1..])
  }

  /** The ops of `log` rewritten to apply after `o`. */
  function TransformEach(log: seq<Edit>, o: Edit): seq<Edit>
    decreases |log|
  {
    if log == [] then [] else [Transform(log[0], o)] + TransformEach(log[1..], Transform(o, log[0]))
  }

  /** Every op of `log` is in range where it is applied, starting from `s`. */
  ghost predicate LogInRange(log: seq<Edit>, s: Text) {
    log != [] ==> InRange(log[0], |s|) && LogInRange(log[1..], Apply(log[0], s))
  }

  lemma TransformKeepsActor(a: Edit, b: Edit)
    ensures Transform(a, b).actor == a.actor && Transform(a, b).id == a.id
    ensures Transform(a, b).kind == a.kind && Transform(a, b).base == a.base
  {
  }

  /** The server's result of carrying an op over the log suffix its author had not
      seen is the author's own text with that suffix carried over the op. */
  lemma {:induction false} OrdersMeetOverLog(o: Edit, log: seq<Edit>, s: Text)
    requires InRange(o, |s|) && LogInRange(log, s)
    requires forall k :: 0 <= k < |log| ==> log[k].actor != o.actor
    ensures Apply(TransformOver(o, log), ApplyAll(log, s)) == ApplyAll(TransformEach(log, o), Apply(o, s))
    ensures InRange(TransformOver(o, log), |ApplyAll(log, s)|)
    decreases |log|
  {
    if log != [] {
      var first := log[0];
      BothOrdersMeet(o, first, s);
      TransformInRange(o, first, s);
      TransformKeepsActor(o, first);
      OrdersMeetOverLog(Transform(o, first), log[1..], Apply(first, s));
      var each := TransformEach(log, o);
      assert each[0] == Transform(first, o) && each[1..] == TransformEach(log[1..], Transform(o, first));
    }
  }
}
