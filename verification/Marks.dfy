// Inline marks in one canonical form.

module Marks {
  import opened Options
  import opened Blocks
  import Utf8

  // ----- Order of marks

  function TagRank(t: MarkTag): nat {
    match t
    case Bold => 0
    case Italic => 1
    case Strike => 2
    case Code => 3
    case Link => 4
    case PageLink => 5
    case Highlight => 6
  }

  predicate KindBefore(a: MarkKind, b: MarkKind) {
    TagRank(a.tag) < TagRank(b.tag)
    || (a.tag == b.tag && (Less(a.url, b.url) || (a.url == b.url && a.page < b.page)))
  }

  predicate Before(a: Mark, b: Mark) {
    a.start < b.start || (a.start == b.start && KindBefore(a.kind, b.kind))
  }

  lemma KindOrderIsTotal(a: MarkKind, b: MarkKind)
    ensures !(KindBefore(a, b) && KindBefore(b, a))
    ensures KindBefore(a, b) || KindBefore(b, a) <==> a != b
  {
    LessIsTotal(a.url, b.url);
  }

  const TAGS: seq<MarkTag> := [Bold, Italic, Strike, Code, Link, PageLink, Highlight]

  /** Of two kinds the one whose tag is listed first comes first; of one tag, by the first
      byte where the urls differ, and then by page. */
  ghost predicate ListedBefore(a: MarkKind, b: MarkKind) {
    || (exists i, j :: 0 <= i < j < |TAGS| && a.tag == TAGS[i] && b.tag == TAGS[j])
    || (a.tag == b.tag && exists n :: FirstBy(a.url, b.url, n))
    || (a.tag == b.tag && a.url == b.url && a.page < b.page)
  }

  lemma RankIsPlace(t: MarkTag)
    ensures TagRank(t) < |TAGS| && forall i :: 0 <= i < |TAGS| ==> (TAGS[i] == t <==> i == TagRank(t))
  {
  }

  /** By start, and at one start by kind. */
  lemma MarkOrderExactly(a: Mark, b: Mark)
    ensures Before(a, b) <==> a.start < b.start || (a.start == b.start && ListedBefore(a.kind, b.kind))
  {
    LessExactly(a.kind.url, b.kind.url);
    RankIsPlace(a.kind.tag);
    RankIsPlace(b.kind.tag);
    assert TAGS[TagRank(a.kind.tag)] == a.kind.tag && TAGS[TagRank(b.kind.tag)] == b.kind.tag;
  }

  lemma BeforeIsTransitive(a: Mark, b: Mark, c: Mark)
    requires Before(a, b) && Before(b, c)
    ensures Before(a, c)
  {
    if Less(a.kind.url, b.kind.url) && Less(b.kind.url, c.kind.url) {
      LessIsTransitive(a.kind.url, b.kind.url, c.kind.url);
    }
  }

  // ----- Coverage and canonical form

  ghost predicate Covers(marks: seq<Mark>, kind: MarkKind, offset: int) {
    exists m :: m in marks && m.kind == kind && m.start <= offset < m.end
  }

  ghost predicate SameCover(a: seq<Mark>, b: seq<Mark>) {
    forall kind, offset :: Covers(a, kind, offset) <==> Covers(b, kind, offset)
  }

  /** Where a mark is: 2 * p stands for the place before byte p, 2 * p + 1 for byte p
      itself. A mark over nothing is at one place and on no byte. */
  predicate Spans(m: Mark, x: int) {
    2 * m.start <= x <= 2 * m.end
  }

  ghost predicate Extends(marks: seq<Mark>, kind: MarkKind, x: int) {
    exists m :: m in marks && m.kind == kind && Spans(m, x)
  }

  ghost predicate SameExtent(a: seq<Mark>, b: seq<Mark>) {
    forall kind, x :: Extends(a, kind, x) <==> Extends(b, kind, x)
  }

  lemma CoverIsExtent(marks: seq<Mark>, kind: MarkKind, offset: int)
    ensures Covers(marks, kind, offset) <==> Extends(marks, kind, 2 * offset + 1)
  {
    if Extends(marks, kind, 2 * offset + 1) {
      var m :| m in marks && m.kind == kind && Spans(m, 2 * offset + 1);
    }
    if Covers(marks, kind, offset) {
      var m :| m in marks && m.kind == kind && m.start <= offset < m.end;
      assert Spans(m, 2 * offset + 1);
    }
  }

  lemma SameExtentCovers(a: seq<Mark>, b: seq<Mark>)
    requires SameExtent(a, b)
    ensures SameCover(a, b)
  {
    forall kind, offset ensures Covers(a, kind, offset) <==> Covers(b, kind, offset) {
      CoverIsExtent(a, kind, offset);
      CoverIsExtent(b, kind, offset);
    }
  }

  /** No mark is inverted. */
  ghost predicate Upright(marks: seq<Mark>) {
    forall m :: m in marks ==> m.start <= m.end
  }

  /** No mark is empty or inverted. */
  ghost predicate Proper(marks: seq<Mark>) {
    forall m :: m in marks ==> m.start < m.end
  }

  /** Sorted by start then kind, and runs of one kind neither overlap nor touch. */
  ghost predicate Orderly(marks: seq<Mark>) {
    && Upright(marks)
    && (forall i, j :: 0 <= i < j < |marks| ==> Before(marks[i], marks[j]))
    && (forall i, j :: 0 <= i < j < |marks| && marks[i].kind == marks[j].kind ==> marks[i].end < marks[j].start)
  }

  /** And no mark over nothing. */
  ghost predicate Canonical(marks: seq<Mark>) {
    Orderly(marks) && Proper(marks)
  }

  lemma FirstStartsNoLater(a: seq<Mark>, b: seq<Mark>)
    requires Orderly(a) && Orderly(b) && SameExtent(a, b) && a != [] && b != []
    ensures b[0].start <= a[0].start
    ensures b[0].start == a[0].start ==> !KindBefore(a[0].kind, b[0].kind)
  {
    var m := a[0];
    assert m in a && Spans(m, 2 * m.start);
    assert Extends(a, m.kind, 2 * m.start);
    var n :| n in b && n.kind == m.kind && Spans(n, 2 * m.start);
    var j :| 0 <= j < |b| && b[j] == n;
    if j > 0 {
      assert Before(b[0], b[j]);
      KindOrderIsTotal(b[0].kind, n.kind);
    }
    KindOrderIsTotal(m.kind, m.kind);
  }

  lemma FirstEndsNoLater(a: seq<Mark>, b: seq<Mark>)
    requires Orderly(a) && Orderly(b) && SameExtent(a, b) && a != [] && b != []
    requires a[0].start == b[0].start && a[0].kind == b[0].kind
    ensures b[0].end <= a[0].end
  {
    var x, kind := 2 * a[0].end + 1, a[0].kind;
    assert !Extends(a, kind, x);
    assert b[0] in b && b[0].kind == kind;
    assert !Spans(b[0], x);
  }

  lemma TailIsOrderly(a: seq<Mark>)
    requires Orderly(a) && a != []
    ensures Orderly(a[1..])
  {
  }

  lemma TailExtent(a: seq<Mark>, kind: MarkKind, x: int)
    requires Orderly(a) && a != []
    ensures Extends(a[1..], kind, x) <==> Extends(a, kind, x) && !(kind == a[0].kind && Spans(a[0], x))
  {
    if Extends(a, kind, x) && !(kind == a[0].kind && Spans(a[0], x)) {
      var m :| m in a && m.kind == kind && Spans(m, x);
      assert m in a[1..];
    }
  }

  lemma SomethingExtends(a: seq<Mark>)
    requires Upright(a)
    ensures a != [] ==> !SameExtent(a, []) && !SameExtent([], a)
  {
    if a != [] {
      var m := a[0];
      assert m in a && Spans(m, 2 * m.start);
      assert Extends(a, m.kind, 2 * m.start) && !Extends([], m.kind, 2 * m.start);
    }
  }

  /** An orderly list is determined by where each kind is. */
  lemma {:induction false} ExtentDeterminesMarks(a: seq<Mark>, b: seq<Mark>)
    requires Orderly(a) && Orderly(b) && SameExtent(a, b)
    ensures a == b
  {
    if a == [] {
      SomethingExtends(b);
    } else if b == [] {
      SomethingExtends(a);
    } else {
      FirstStartsNoLater(a, b);
      FirstStartsNoLater(b, a);
      KindOrderIsTotal(a[0].kind, b[0].kind);
      FirstEndsNoLater(a, b);
      FirstEndsNoLater(b, a);
      assert a[0] == b[0];
      forall kind, x ensures Extends(a[1..], kind, x) <==> Extends(b[1..], kind, x) {
        TailExtent(a, kind, x);
        TailExtent(b, kind, x);
      }
      TailIsOrderly(a);
      TailIsOrderly(b);
      ExtentDeterminesMarks(a[1..], b[1..]);
    }
  }

  /** Of marks that are on bytes, the bytes tell the places. */
  lemma ProperExtent(a: seq<Mark>, kind: MarkKind, x: int)
    requires Proper(a)
    ensures Extends(a, kind, x) <==>
      if x % 2 == 1 then Covers(a, kind, x / 2) else Covers(a, kind, x / 2) || Covers(a, kind, x / 2 - 1)
  {
    if Extends(a, kind, x) {
      var m :| m in a && m.kind == kind && Spans(m, x);
      assert m.start <= x / 2 < m.end || m.start <= x / 2 - 1 < m.end;
    }
    if Covers(a, kind, x / 2) {
      var m :| m in a && m.kind == kind && m.start <= x / 2 < m.end;
      assert Spans(m, x);
    }
    if x % 2 == 0 && Covers(a, kind, x / 2 - 1) {
      var m :| m in a && m.kind == kind && m.start <= x / 2 - 1 < m.end;
      assert Spans(m, x);
    }
  }

  /** The canonical form is determined by what each kind covers. */
  lemma CoverDeterminesMarks(a: seq<Mark>, b: seq<Mark>)
    requires Canonical(a) && Canonical(b) && SameCover(a, b)
    ensures a == b
  {
    forall kind, x ensures Extends(a, kind, x) <==> Extends(b, kind, x) {
      ProperExtent(a, kind, x);
      ProperExtent(b, kind, x);
    }
    ExtentDeterminesMarks(a, b);
  }

  // ----- Marks over nothing

  /** The mark is over nothing, and no mark of its kind on some byte reaches its place. */
  ghost predicate Stranded(marks: seq<Mark>, m: Mark) {
    && m.start == m.end
    && forall n :: n in marks && n.kind == m.kind && n.start < n.end ==> !Spans(n, 2 * m.start)
  }

  lemma StrandedStays(ms: seq<Mark>, out: seq<Mark>, m: Mark)
    requires Upright(ms) && Canonical(out) && SameExtent(ms, out) && m in ms
    ensures !Stranded(ms, m)
  {
    if m.start == m.end {
      var x := 2 * m.start;
      assert Spans(m, x);
      assert Extends(ms, m.kind, x);
      var r :| r in out && r.kind == m.kind && Spans(r, x);
      var y := if m.start < r.end then x + 1 else x - 1;
      assert Spans(r, y);
      assert Extends(out, m.kind, y);
      var n :| n in ms && n.kind == m.kind && Spans(n, y);
      assert n.start < n.end && Spans(n, x);
    }
  }

  lemma EmptyRunWasStranded(ms: seq<Mark>, out: seq<Mark>, r: Mark) returns (m: Mark)
    requires Upright(ms) && Orderly(out) && SameExtent(ms, out) && r in out && r.start == r.end
    ensures m in ms && Stranded(ms, m)
  {
    var x := 2 * r.start;
    assert Spans(r, x);
    assert Extends(out, r.kind, x);
    m :| m in ms && m.kind == r.kind && Spans(m, x);
    forall n | n in ms && n.kind == r.kind && n.start < n.end ensures !Spans(n, x) {
      NoRunBeside(ms, out, r, n);
    }
    assert Stranded(ms, m);
  }

  lemma NoRunBeside(ms: seq<Mark>, out: seq<Mark>, r: Mark, n: Mark)
    requires Orderly(out) && SameExtent(ms, out) && r in out && r.start == r.end
    requires n in ms && n.kind == r.kind && n.start < n.end
    ensures !Spans(n, 2 * r.start)
  {
    forall y | Spans(n, y) ensures Extends(out, n.kind, y) {
      assert Extends(ms, n.kind, y);
    }
    var i :| 0 <= i < |out| && out[i] == r;
    forall o | o in out && o.kind == r.kind
      ensures !Spans(o, 2 * r.start + 1) && !Spans(o, 2 * r.start - 1)
    {
      var j :| 0 <= j < |out| && out[j] == o;
      assert i == j || o.end < r.start || r.end < o.start;
    }
    assert !Extends(out, n.kind, 2 * r.start + 1) && !Extends(out, n.kind, 2 * r.start - 1);
    assert !Spans(n, 2 * r.start + 1) && !Spans(n, 2 * r.start - 1);
  }

  /** What normalising gives is canonical exactly when each mark over nothing lies on or
      at the edge of a mark of its kind that is not: otherwise it stays. */
  lemma CanonicalUnlessStranded(ms: seq<Mark>, out: seq<Mark>)
    requires Upright(ms) && Orderly(out) && SameExtent(ms, out)
    ensures Canonical(out) <==> forall m :: m in ms ==> !Stranded(ms, m)
  {
    if Canonical(out) {
      forall m | m in ms ensures !Stranded(ms, m) {
        StrandedStays(ms, out, m);
      }
    } else {
      var r :| r in out && r.start >= r.end;
      var m := EmptyRunWasStranded(ms, out, r);
    }
  }

  /** A link over nothing beside a bold byte outlives normalising. */
  lemma EmptyLinkStays(link: MarkKind, bold: MarkKind, out: seq<Mark>)
    requires link.tag == Link && bold.tag == Bold
    requires Orderly(out) && SameExtent([Mark(link, 3, 3), Mark(bold, 0, 1)], out)
    ensures out == [Mark(bold, 0, 1), Mark(link, 3, 3)] && !Canonical(out)
  {
    var sorted := [Mark(bold, 0, 1), Mark(link, 3, 3)];
    var given := [Mark(link, 3, 3), Mark(bold, 0, 1)];
    forall kind, x ensures Extends(given, kind, x) <==> Extends(sorted, kind, x) {
      assert forall m :: m in given <==> m in sorted;
    }
    ExtentDeterminesMarks(out, sorted);
    assert sorted[1] in sorted;
  }

  // ----- Adding and removing

  /** Covering [start, end) with `kind` on top of what `a` covers gives what `b` covers. */
  ghost predicate Adds(a: seq<Mark>, b: seq<Mark>, kind: MarkKind, start: int, end: int) {
    forall k, o :: Covers(b, k, o) <==> Covers(a, k, o) || (k == kind && start <= o < end)
  }

  /** The same of places and bytes. */
  ghost predicate AddsMark(a: seq<Mark>, b: seq<Mark>, m: Mark) {
    forall k, x :: Extends(b, k, x) <==> Extends(a, k, x) || (k == m.kind && Spans(m, x))
  }

  ghost predicate Removes(a: seq<Mark>, b: seq<Mark>, kind: MarkKind, start: int, end: int) {
    forall k, o :: Covers(b, k, o) <==> Covers(a, k, o) && !(k == kind && start <= o < end)
  }

  lemma AddsMarkCovers(a: seq<Mark>, b: seq<Mark>, m: Mark)
    requires AddsMark(a, b, m)
    ensures Adds(a, b, m.kind, m.start, m.end)
  {
    forall k, o ensures Covers(b, k, o) <==> Covers(a, k, o) || (k == m.kind && m.start <= o < m.end) {
      CoverIsExtent(a, k, o);
      CoverIsExtent(b, k, o);
    }
  }

  /** Two marks give the same list whichever is added first. */
  lemma AddOrderIsIrrelevant(base: seq<Mark>, a: seq<Mark>, ab: seq<Mark>, b: seq<Mark>, ba: seq<Mark>, m: Mark, n: Mark)
    requires Orderly(ab) && Orderly(ba)
    requires AddsMark(base, a, m) && AddsMark(a, ab, n)
    requires AddsMark(base, b, n) && AddsMark(b, ba, m)
    ensures ab == ba
  {
    assert SameExtent(ab, ba);
    ExtentDeterminesMarks(ab, ba);
  }

  /** Removing a range undoes adding it exactly when the kind covered none of it before. */
  lemma RemoveUndoesAdd(base: seq<Mark>, added: seq<Mark>, removed: seq<Mark>, kind: MarkKind, start: int, end: int)
    requires Canonical(base) && Canonical(removed)
    requires Adds(base, added, kind, start, end) && Removes(added, removed, kind, start, end)
    ensures removed == base <==> forall o :: start <= o < end ==> !Covers(base, kind, o)
  {
    if forall o :: start <= o < end ==> !Covers(base, kind, o) {
      assert SameCover(removed, base);
      CoverDeterminesMarks(removed, base);
    }
    if removed == base {
      forall o | start <= o < end ensures !Covers(base, kind, o) {
        assert !Covers(removed, kind, o);
      }
    }
  }

  // ----- Sorting

  ghost predicate SortedByStart(ms: seq<Mark>) {
    forall i, j :: 0 <= i < j < |ms| ==> ms[i].start <= ms[j].start
  }

  /** Any order of equal starts will do; the merge below does not depend on it. */
  method SortByStart(ms: seq<Mark>) returns (r: seq<Mark>)
    ensures SortedByStart(r) && |r| == |ms|
    ensures forall m :: m in r <==> m in ms
  {
    r := [];
    var i := 0;
    while i < |ms|
      invariant 0 <= i <= |ms| && |r| == i && SortedByStart(r)
      invariant forall m :: m in r <==> m in ms[..i]
    {
      var j := |r|;
      while j > 0 && ms[i].start < r[j - 1].start
        invariant 0 <= j <= |r|
        invariant forall k :: j <= k < |r| ==> ms[i].start < r[k].start
      {
        j := j - 1;
      }
      InsertByStart(r, j, ms[i]);
      InsertMembers(r, j, ms[i]);
      assert ms[..i + 1] == ms[..i] + [ms[i]];
      r := r[..j] + [ms[i]] + r[j..];
      i := i + 1;
    }
  }

  lemma InsertByStart(r: seq<Mark>, j: nat, m: Mark)
    requires SortedByStart(r) && j <= |r| && (j > 0 ==> r[j - 1].start <= m.start)
    requires forall k :: j <= k < |r| ==> m.start < r[k].start
    ensures SortedByStart(r[..j] + [m] + r[j..])
  {
  }

  lemma InsertMembers(r: seq<Mark>, j: nat, m: Mark)
    requires j <= |r|
    ensures forall x :: x in r[..j] + [m] + r[j..] <==> x in r || x == m
  {
  }

  ghost predicate StrictlySorted(ms: seq<Mark>) {
    forall i, j :: 0 <= i < j < |ms| ==> Before(ms[i], ms[j])
  }

  /** Marks with pairwise different (start, kind). */
  ghost predicate DistinctKeys(ms: seq<Mark>) {
    forall i, j :: 0 <= i < j < |ms| ==> ms[i].start != ms[j].start || ms[i].kind != ms[j].kind
  }

  method SortMarks(ms: seq<Mark>) returns (r: seq<Mark>)
    ensures DistinctKeys(ms) ==> StrictlySorted(r)
    ensures |r| == |ms| && forall m :: m in r <==> m in ms
  {
    r := [];
    var i := 0;
    while i < |ms|
      invariant 0 <= i <= |ms| && |r| == i && (DistinctKeys(ms) ==> StrictlySorted(r))
      invariant forall m :: m in r <==> m in ms[..i]
    {
      var m := ms[i];
      var j := |r|;
      while j > 0 && !Before(r[j - 1], m)
        invariant 0 <= j <= |r|
        invariant DistinctKeys(ms) ==> forall k :: j <= k < |r| ==> Before(m, r[k])
      {
        assert r[j - 1] in ms[..i];
        KindOrderIsTotal(r[j - 1].kind, m.kind);
        j := j - 1;
      }
      if DistinctKeys(ms) {
        PlacedInOrder(r, j, m);
      }
      InsertMembers(r, j, m);
      assert ms[..i + 1] == ms[..i] + [m];
      r := r[..j] + [m] + r[j..];
      i := i + 1;
    }
    assert ms[..i] == ms;
  }

  lemma PlacedInOrder(r: seq<Mark>, j: nat, m: Mark)
    requires StrictlySorted(r) && j <= |r| && (j > 0 ==> Before(r[j - 1], m))
    requires forall k :: j <= k < |r| ==> Before(m, r[k])
    ensures StrictlySorted(r[..j] + [m] + r[j..])
  {
    forall k | 0 <= k < j ensures Before(r[k], m) {
      if k < j - 1 {
        BeforeIsTransitive(r[k], r[j - 1], m);
      }
    }
  }

  // ----- Merging runs of one kind

  ghost predicate Within(ms: seq<Mark>, x: int) {
    exists m :: m in ms && Spans(m, x)
  }

  /** Runs in order with a gap between any two. */
  ghost predicate Separated(ms: seq<Mark>) {
    forall i, j :: 0 <= i < j < |ms| ==> ms[i].end < ms[j].start
  }

  /** Merges sorted marks of one kind: the same places and bytes, no two runs meeting. */
  method MergeRuns(ms: seq<Mark>, kind: MarkKind) returns (out: seq<Mark>)
    requires ms != [] && SortedByStart(ms) && forall m :: m in ms ==> m.kind == kind
    ensures (Upright(ms) ==> Upright(out)) && Separated(out) && forall m :: m in out ==> m.kind == kind
    ensures forall x :: Within(out, x) <==> Within(ms, x)
  {
    out := [];
    var run := ms[0];
    var i := 1;
    WithinSnoc([], ms[0]);
    assert ms[..1] == [] + [ms[0]];
    while i < |ms|
      invariant 1 <= i <= |ms|
      invariant Upright(ms) ==> Upright(out + [run])
      invariant Separated(out + [run]) && forall m :: m in out + [run] ==> m.kind == kind
      invariant run.start <= ms[i - 1].start
      invariant forall x :: Within(out + [run], x) <==> Within(ms[..i], x)
    {
      var m := ms[i];
      assert m in ms && ms[..i + 1] == ms[..i] + [m];
      WithinSnoc(ms[..i], m);
      WithinSnoc(out, run);
      if m.start <= run.end {
        if m.end > run.end {
          WithinSnoc(out, run.(end := m.end));
          SeparatedWiden(out, run, m.end);
          run := run.(end := m.end);
        }
      } else {
        WithinSnoc(out + [run], m);
        SeparatedSnoc(out, run, m);
        out := out + [run];
        run := m;
      }
      i := i + 1;
    }
    assert ms[..i] == ms;
    out := out + [run];
  }

  lemma WithinSnoc(ms: seq<Mark>, m: Mark)
    ensures forall x :: Within(ms + [m], x) <==> Within(ms, x) || Spans(m, x)
  {
    forall x ensures Within(ms + [m], x) <==> Within(ms, x) || Spans(m, x) {
      if Within(ms, x) {
        var n :| n in ms && Spans(n, x);
        assert n in ms + [m];
      }
      if Spans(m, x) {
        assert m in ms + [m];
      }
    }
  }

  lemma SeparatedWiden(out: seq<Mark>, run: Mark, end: nat)
    requires Separated(out + [run])
    ensures Separated(out + [run.(end := end)])
  {
    var a, b := out + [run], out + [run.(end := end)];
    forall i, j | 0 <= i < j < |b| ensures b[i].end < b[j].start {
      assert a[i].end < a[j].start;
    }
  }

  lemma SeparatedSnoc(out: seq<Mark>, run: Mark, m: Mark)
    requires Separated(out + [run]) && run.start <= m.start && run.end < m.start
    ensures Separated(out + [run] + [m])
  {
    var all := out + [run];
    forall i | 0 <= i < |all| ensures all[i].end < m.start {
      if i < |out| {
        assert all[i].end < all[|out|].start;
        assert run in all;
      }
    }
  }

  // ----- Content

  datatype RangeError = OutOfBounds(offset: nat, len: nat) | InvertedRange(start: nat, end: nat) | NotCharBoundary(offset: nat)

  /** Not a UTF-8 continuation byte. */
  predicate RuneStart(b: Byte) {
    !(0x80 <= b < 0xC0)
  }

  /** Bounds, then zero width, then inversion, then each end on a character boundary. */
  function ValidateRange(text: seq<Byte>, start: nat, end: nat): Result<bool, RangeError> {
    if start > |text| then Err(OutOfBounds(start, |text|))
    else if end > |text| then Err(OutOfBounds(end, |text|))
    else if start == end then Ok(true)
    else if start > end then Err(InvertedRange(start, end))
    else if !RuneStart(text[start]) then Err(NotCharBoundary(start))
    else if end < |text| && !RuneStart(text[end]) then Err(NotCharBoundary(end))
    else Ok(false)
  }

  /** An offset between two characters: at the end, or before a byte that starts one. */
  ghost predicate Between(text: seq<Byte>, offset: nat) {
    offset == |text| || (offset < |text| && (text[offset] < 0x80 || text[offset] >= 0xC0))
  }

  /** A range over some text, cut between characters. */
  ghost predicate GoodRange(text: seq<Byte>, start: nat, end: nat) {
    start < end <= |text| && Between(text, start) && Between(text, end)
  }

  /** On well-formed UTF-8, cut where characters end. */
  lemma GoodRangeOnUtf8(text: seq<Byte>, start: nat, end: nat)
    requires Utf8.Valid(text)
    ensures GoodRange(text, start, end) <==> start < end && Utf8.Boundary(text, start) && Utf8.Boundary(text, end)
  {
    if start <= |text| && end <= |text| {
      Utf8.BoundaryExactly(text, start);
      Utf8.BoundaryExactly(text, end);
    }
  }

  /** What is wrong with any other range: the first offset out of bounds, or else the
      order of the two, or else the first of them inside a character. */
  ghost function BadRange(text: seq<Byte>, start: nat, end: nat): RangeError {
    if start > |text| then OutOfBounds(start, |text|)
    else if end > |text| then OutOfBounds(end, |text|)
    else if start > end then InvertedRange(start, end)
    else if !Between(text, start) then NotCharBoundary(start)
    else NotCharBoundary(end)
  }

  /** Marks of one kind, in the order they stand. */
  ghost predicate Groups(byKind: map<MarkKind, seq<Mark>>, ms: seq<Mark>) {
    && (forall k :: k in byKind ==> byKind[k] != [])
    && (forall k, m :: k in byKind && m in byKind[k] ==> m in ms && m.kind == k)
    && (forall m :: m in ms ==> m.kind in byKind && m in byKind[m.kind])
  }

  method GroupByKind(ms: seq<Mark>) returns (byKind: map<MarkKind, seq<Mark>>)
    ensures Groups(byKind, ms)
  {
    byKind := map[];
    var i := 0;
    while i < |ms|
      invariant 0 <= i <= |ms| && Groups(byKind, ms[..i])
    {
      var m := ms[i];
      var group := if m.kind in byKind then byKind[m.kind] else [];
      assert ms[..i + 1] == ms[..i] + [m];
      byKind := byKind[m.kind := group + [m]];
      i := i + 1;
    }
    assert ms[..i] == ms;
  }

  /** Within each kind already merged, the runs are apart and cover what the marks covered. */
  ghost predicate MergedFor(merged: seq<Mark>, ms: seq<Mark>, done: set<MarkKind>) {
    && (Upright(ms) ==> Upright(merged))
    && (forall m :: m in merged ==> m.kind in done)
    && (forall i, j :: 0 <= i < j < |merged| && merged[i].kind == merged[j].kind ==> merged[i].end < merged[j].start)
    && (forall k, x :: k in done ==> (Extends(merged, k, x) <==> Extends(ms, k, x)))
  }

  lemma MergeGroup(merged: seq<Mark>, ms: seq<Mark>, done: set<MarkKind>, kind: MarkKind, group: seq<Mark>, runs: seq<Mark>)
    requires MergedFor(merged, ms, done) && kind !in done
    requires forall m :: m in group <==> m in ms && m.kind == kind
    requires (Upright(ms) ==> Upright(runs)) && Separated(runs) && forall m :: m in runs ==> m.kind == kind
    requires forall x :: Within(runs, x) <==> Within(group, x)
    ensures MergedFor(merged + runs, ms, done + {kind})
  {
    var all := merged + runs;
    forall k, x | k in done + {kind} ensures Extends(all, k, x) <==> Extends(ms, k, x) {
      MergedExtent(merged, runs, kind, k, x);
      if k == kind {
        GroupExtent(ms, group, kind, x);
      }
    }
    MergedApart(merged, runs, kind);
  }

  lemma MergedExtent(merged: seq<Mark>, runs: seq<Mark>, kind: MarkKind, k: MarkKind, x: int)
    requires (forall m :: m in runs ==> m.kind == kind) && forall m :: m in merged ==> m.kind != kind
    ensures Extends(merged + runs, k, x) <==> if k == kind then Within(runs, x) else Extends(merged, k, x)
  {
    var all := merged + runs;
    if Within(runs, x) {
      var m :| m in runs && Spans(m, x);
      assert m in all;
    }
    if Extends(merged, k, x) {
      var m :| m in merged && m.kind == k && Spans(m, x);
      assert m in all;
    }
    if Extends(all, k, x) {
      var m :| m in all && m.kind == k && Spans(m, x);
      assert m in merged || m in runs;
    }
  }

  lemma GroupExtent(ms: seq<Mark>, group: seq<Mark>, kind: MarkKind, x: int)
    requires forall m :: m in group <==> m in ms && m.kind == kind
    ensures Within(group, x) <==> Extends(ms, kind, x)
  {
  }

  lemma MergedApart(merged: seq<Mark>, runs: seq<Mark>, kind: MarkKind)
    requires Separated(runs) && (forall m :: m in runs ==> m.kind == kind) && forall m :: m in merged ==> m.kind != kind
    requires forall i, j :: 0 <= i < j < |merged| && merged[i].kind == merged[j].kind ==> merged[i].end < merged[j].start
    ensures var all := merged + runs;
      forall i, j :: 0 <= i < j < |all| && all[i].kind == all[j].kind ==> all[i].end < all[j].start
  {
    var all := merged + runs;
    forall i, j | 0 <= i < j < |all| && all[i].kind == all[j].kind ensures all[i].end < all[j].start {
      assert all[i] == if i < |merged| then merged[i] else runs[i - |merged|];
      assert all[j] == if j < |merged| then merged[j] else runs[j - |merged|];
      assert i < |merged| ==> all[i] in merged;
      assert i >= |merged| ==> all[i] in runs;
      assert j < |merged| ==> all[j] in merged;
      assert j >= |merged| ==> all[j] in runs;
    }
  }

  method MergeAll(byKind: map<MarkKind, seq<Mark>>, ghost ms: seq<Mark>) returns (merged: seq<Mark>)
    requires Groups(byKind, ms)
    ensures MergedFor(merged, ms, byKind.Keys)
  {
    merged := [];
    var todo := byKind.Keys;
    while todo != {}
      invariant todo <= byKind.Keys && MergedFor(merged, ms, byKind.Keys - todo)
      decreases todo
    {
      // A map is ranged over in no particular order.
      var kind :| kind in todo;
      var group := byKind[kind];
      var sorted := SortByStart(group);
      assert sorted != [];
      var runs := MergeRuns(sorted, kind);
      forall x ensures Within(sorted, x) <==> Within(group, x) {
      }
      MergeGroup(merged, ms, byKind.Keys - todo, kind, group, runs);
      assert byKind.Keys - todo + {kind} == byKind.Keys - (todo - {kind});
      merged := merged + runs;
      todo := todo - {kind};
    }
    assert byKind.Keys - todo == byKind.Keys;
  }

  lemma SortedIsOrderly(merged: seq<Mark>, ms: seq<Mark>, done: set<MarkKind>, sorted: seq<Mark>)
    requires MergedFor(merged, ms, done) && (forall m :: m in ms ==> m.kind in done)
    requires (DistinctKeys(merged) ==> StrictlySorted(sorted)) && forall m :: m in sorted <==> m in merged
    ensures SameExtent(ms, sorted)
    ensures Upright(ms) ==> Orderly(sorted)
  {
    if Upright(ms) {
      UprightIsOrderly(merged, ms, done, sorted);
    }
    forall k, x ensures Extends(sorted, k, x) <==> Extends(ms, k, x) {
      assert Extends(sorted, k, x) <==> Extends(merged, k, x);
      if k in done {
        assert Extends(merged, k, x) <==> Extends(ms, k, x);
      }
    }
  }

  lemma UprightIsOrderly(merged: seq<Mark>, ms: seq<Mark>, done: set<MarkKind>, sorted: seq<Mark>)
    requires MergedFor(merged, ms, done) && Upright(ms)
    requires (DistinctKeys(merged) ==> StrictlySorted(sorted)) && forall m :: m in sorted <==> m in merged
    ensures Orderly(sorted)
  {
    forall i, j | 0 <= i < j < |merged| ensures merged[i].start != merged[j].start || merged[i].kind != merged[j].kind {
      assert merged[i] in merged;
    }
    forall i, j | 0 <= i < j < |sorted| && sorted[i].kind == sorted[j].kind ensures sorted[i].end < sorted[j].start {
      assert sorted[i] in merged && sorted[j] in merged && Before(sorted[i], sorted[j]);
      var a :| 0 <= a < |merged| && merged[a] == sorted[i];
      var b :| 0 <= b < |merged| && merged[b] == sorted[j];
      KindOrderIsTotal(sorted[i].kind, sorted[j].kind);
    }
  }

  class InlineContent {
    const text: seq<Byte>
    var marks: seq<Mark>

    constructor (text: seq<Byte>)
      ensures this.text == text && marks == []
    {
      this.text := text;
      marks := [];
    }

    /** Gives a list of the same extent, and the one orderly list of it unless a mark was
        inverted, whatever order maps and sorts produce things in. */
    method Normalise()
      modifies this
      ensures SameExtent(old(marks), marks) && (old(Upright(marks)) ==> Orderly(marks))
    {
      if |marks| == 0 {
        return;
      }
      var byKind := GroupByKind(marks);
      var merged := MergeAll(byKind, marks);
      var sorted := SortMarks(merged);
      SortedIsOrderly(merged, marks, byKind.Keys, sorted);
      marks := sorted;
    }

    /** Adds exactly [start, end) to where `kind` is and normalises, when that is a range over
        some text cut between characters; an empty range changes nothing, any other is an error. */
    method AddMark(kind: MarkKind, start: nat, end: nat) returns (err: Option<RangeError>)
      modifies this
      ensures GoodRange(text, start, end) ==>
                && err == None && (old(Upright(marks)) ==> Orderly(marks))
                && AddsMark(old(marks), marks, Mark(kind, start, end))
                && Adds(old(marks), marks, kind, start, end)
      ensures !GoodRange(text, start, end) ==> marks == old(marks)
      ensures !GoodRange(text, start, end) ==>
                err == if start == end <= |text| then None else Some(BadRange(text, start, end))
    {
      match ValidateRange(text, start, end)
      case Err(e) => return Some(e);
      case Ok(zeroWidth) =>
        if zeroWidth {
          return None;
        }
        ghost var was := marks;
        ExtentSnoc(marks, Mark(kind, start, end));
        marks := marks + [Mark(kind, start, end)];
        Normalise();
        AddsMarkCovers(was, marks, Mark(kind, start, end));
        return None;
    }

    /** Trims, splits and drops the runs of `kind` that meet [start, end), and normalises. */
    method RemoveMark(kind: MarkKind, start: nat, end: nat) returns (err: Option<RangeError>)
      modifies this
      ensures GoodRange(text, start, end) ==>
                && err == None && (old(Upright(marks)) ==> Orderly(marks))
                && Removes(old(marks), marks, kind, start, end)
                && RemovesExtent(old(marks), marks, kind, start, end)
      ensures !GoodRange(text, start, end) ==> marks == old(marks)
      ensures !GoodRange(text, start, end) ==>
                err == if start == end <= |text| then None else Some(BadRange(text, start, end))
    {
      match ValidateRange(text, start, end)
      case Err(e) => return Some(e);
      case Ok(zeroWidth) =>
        if zeroWidth {
          return None;
        }
        ghost var was := marks;
        var kept := Subtract(marks, kind, start, end);
        marks := kept;
        Normalise();
        SameExtentCovers(kept, marks);
        SubtractedExtent(was, kind, start, end);
        return None;
    }

    /** The kinds covering `offset`, in the order their marks stand. */
    method MarksAt(offset: nat) returns (kinds: seq<MarkKind>)
      ensures kinds == KindsAt(marks, offset)
    {
      kinds := [];
      var i := 0;
      while i < |marks|
        invariant 0 <= i <= |marks| && kinds == KindsAt(marks[..i], offset)
      {
        assert marks[..i + 1][..i] == marks[..i];
        if marks[i].start <= offset < marks[i].end {
          kinds := kinds + [marks[i].kind];
        }
        i := i + 1;
      }
      assert marks[..i] == marks;
    }
  }

  lemma ExtentSnoc(ms: seq<Mark>, m: Mark)
    ensures forall k, x :: Extends(ms + [m], k, x) <==> Extends(ms, k, x) || (k == m.kind && Spans(m, x))
  {
    forall k, x ensures Extends(ms + [m], k, x) <==> Extends(ms, k, x) || (k == m.kind && Spans(m, x)) {
      if Extends(ms, k, x) {
        var n :| n in ms && n.kind == k && Spans(n, x);
        assert n in ms + [m];
      }
      if k == m.kind && Spans(m, x) {
        assert m in ms + [m];
      }
    }
  }

  // ----- Which kinds are at an offset

  function KindsAt(marks: seq<Mark>, offset: int): seq<MarkKind> {
    if marks == [] then []
    else
      var n := |marks| - 1;
      KindsAt(marks[..n], offset) + if marks[n].start <= offset < marks[n].end then [marks[n].kind] else []
  }

  /** The mark that puts the `i`th kind into the list. */
  function MarkAt(marks: seq<Mark>, offset: int, i: nat): (j: nat)
    requires i < |KindsAt(marks, offset)|
    ensures j < |marks| && marks[j].start <= offset < marks[j].end && marks[j].kind == KindsAt(marks, offset)[i]
  {
    var n := |marks| - 1;
    if i < |KindsAt(marks[..n], offset)| then MarkAt(marks[..n], offset, i) else n
  }

  lemma {:induction false} MarkAtGrows(marks: seq<Mark>, offset: int, i: nat, j: nat)
    requires i < j < |KindsAt(marks, offset)|
    ensures MarkAt(marks, offset, i) < MarkAt(marks, offset, j)
  {
    var n := |marks| - 1;
    if j < |KindsAt(marks[..n], offset)| {
      MarkAtGrows(marks[..n], offset, i, j);
    }
  }

  lemma {:induction false} KindsAtCover(marks: seq<Mark>, offset: int, kind: MarkKind)
    ensures kind in KindsAt(marks, offset) <==> Covers(marks, kind, offset)
  {
    if marks != [] {
      var n := |marks| - 1;
      KindsAtCover(marks[..n], offset, kind);
      assert marks == marks[..n] + [marks[n]];
      CoverSnoc(marks[..n], marks[n]);
    }
  }

  /** Of normalised marks: exactly the kinds that cover the offset, each once, in the order of
      the runs that cover it. */
  lemma KindsAtInOrder(marks: seq<Mark>, offset: int, i: nat, j: nat)
    requires Orderly(marks) && i < j < |KindsAt(marks, offset)|
    ensures KindsAt(marks, offset)[i] != KindsAt(marks, offset)[j]
    ensures Before(marks[MarkAt(marks, offset, i)], marks[MarkAt(marks, offset, j)])
  {
    MarkAtGrows(marks, offset, i, j);
  }

  lemma CoverSnoc(ms: seq<Mark>, m: Mark)
    ensures forall k, o :: Covers(ms + [m], k, o) <==> Covers(ms, k, o) || (k == m.kind && m.start <= o < m.end)
  {
  }

  // ----- Taking a range away

  /** What is left of one mark of the removed kind. */
  function Remainder(m: Mark, start: nat, end: nat): seq<Mark> {
    if m.end <= start || m.start >= end then [m]
    else if m.start >= start && m.end <= end then []
    else if m.start < start && m.end > end then [m.(end := start), m.(start := end)]
    else if m.start < start then [m.(end := start)]
    else [m.(start := end)]
  }

  function Subtracted(ms: seq<Mark>, kind: MarkKind, start: nat, end: nat): seq<Mark> {
    if ms == [] then []
    else
      var m := ms[|ms| - 1];
      Subtracted(ms[..|ms| - 1], kind, start, end) + if m.kind != kind then [m] else Remainder(m, start, end)
  }

  /** Place or byte `x` of a mark is left when [start, end) is taken from its kind: a mark that
      reaches no byte of the range stays whole, any other keeps what is before and behind it. */
  predicate StaysAt(m: Mark, kind: MarkKind, start: nat, end: nat, x: int) {
    Spans(m, x)
    && (m.kind != kind || m.end <= start || end <= m.start || (m.start < start && x <= 2 * start) || (end < m.end && 2 * end <= x))
  }

  ghost predicate RemovesExtent(a: seq<Mark>, b: seq<Mark>, kind: MarkKind, start: nat, end: nat) {
    forall k, x :: Extends(b, k, x) <==> exists m :: m in a && m.kind == k && StaysAt(m, kind, start, end, x)
  }

  lemma RemainderExtent(m: Mark, kind: MarkKind, start: nat, end: nat, rest: seq<Mark>, k: MarkKind, x: int)
    requires start < end && rest == if m.kind != kind then [m] else Remainder(m, start, end)
    ensures Extends(rest, k, x) <==> m.kind == k && StaysAt(m, kind, start, end, x)
  {
    forall n | n in rest ensures n.kind == m.kind && (Spans(n, x) ==> StaysAt(m, kind, start, end, x)) {
    }
    if m.kind == k && StaysAt(m, kind, start, end, x) {
      var n := if m.kind != kind || m.end <= start || end <= m.start then m
               else if m.start < start && x <= 2 * start then m.(end := start) else m.(start := end);
      assert n in rest && Spans(n, x);
    }
  }

  lemma {:induction false} SubtractedExtent(ms: seq<Mark>, kind: MarkKind, start: nat, end: nat)
    requires start < end
    ensures RemovesExtent(ms, Subtracted(ms, kind, start, end), kind, start, end)
  {
    if ms != [] {
      var n := |ms| - 1;
      var m, before := ms[n], ms[..n];
      var rest := if m.kind != kind then [m] else Remainder(m, start, end);
      SubtractedExtent(before, kind, start, end);
      assert ms == before + [m];
      forall k, x ensures Extends(Subtracted(ms, kind, start, end), k, x) <==>
                exists o :: o in ms && o.kind == k && StaysAt(o, kind, start, end, x) {
        RemainderExtent(m, kind, start, end, rest, k, x);
        ExtentOfBoth(Subtracted(before, kind, start, end), rest, k, x);
      }
    }
  }

  lemma ExtentOfBoth(a: seq<Mark>, b: seq<Mark>, k: MarkKind, x: int)
    ensures Extends(a + b, k, x) <==> Extends(a, k, x) || Extends(b, k, x)
  {
    if m :| m in a && m.kind == k && Spans(m, x) {
      assert m in a + b;
    }
    if m :| m in b && m.kind == k && Spans(m, x) {
      assert m in a + b;
    }
  }

  method Subtract(ms: seq<Mark>, kind: MarkKind, start: nat, end: nat) returns (kept: seq<Mark>)
    requires start < end
    ensures kept == Subtracted(ms, kind, start, end)
    ensures (Upright(ms) ==> Upright(kept)) && Removes(ms, kept, kind, start, end)
  {
    kept := [];
    var i := 0;
    while i < |ms|
      invariant 0 <= i <= |ms| && kept == Subtracted(ms[..i], kind, start, end)
      invariant (Upright(ms) ==> Upright(kept)) && Removes(ms[..i], kept, kind, start, end)
    {
      var m := ms[i];
      assert m in ms && ms[..i + 1] == ms[..i] + [m] && ms[..i + 1][..i] == ms[..i];
      CoverSnoc(ms[..i], m);
      var rest := if m.kind != kind then [m] else Remainder(m, start, end);
      RemainderCovers(kept, m, rest, kind, start, end);
      kept := kept + rest;
      i := i + 1;
    }
    assert ms[..i] == ms;
  }

  lemma RemainderCovers(kept: seq<Mark>, m: Mark, rest: seq<Mark>, kind: MarkKind, start: nat, end: nat)
    requires start < end
    requires rest == if m.kind != kind then [m] else Remainder(m, start, end)
    ensures m.start <= m.end ==> Upright(rest)
    ensures forall k, o :: Covers(kept + rest, k, o) <==>
              Covers(kept, k, o) || (k == m.kind && m.start <= o < m.end && !(k == kind && start <= o < end))
  {
  }
}
