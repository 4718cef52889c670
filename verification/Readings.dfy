// What a line is read as.

module Readings {
  // By prefixes and first occurrences alone: which markers take effect where, and the
  // text and marks that come of it.

  import opened Options
  import opened Trims
  import opened Inlines

  // ----- Occurrences

  predicate OccursAt(s: Text, k: nat, pat: Text) {
    k + |pat| <= |s| && s[k..k + |pat|] == pat
  }

  /** From `from` on, `pat` first occurs at `k`. */
  ghost predicate FirstAt(s: Text, from: nat, k: nat, pat: Text) {
    from <= k && OccursAt(s, k, pat) && forall j :: from <= j < k ==> !OccursAt(s, j, pat)
  }

  // ----- Markers

  // A body with its mark, and how many bytes of the line they take.
  datatype Span = Span(body: Text, kind: MarkKind, size: nat)

  const PAIRS: seq<(string, MarkKind)> := [("**", Bold), ("~~", Strike), ("`", Code), ("*", Italic), ("_", Italic)]

  /** `[[title]]` up to the first `]]`. */
  ghost predicate PageLinkIs(s: Text, p: Span) {
    OccursAt(s, 0, Ascii("[[")) &&
    exists e: nat :: FirstAt(s, 2, e, Ascii("]]")) && p == Span(s[2..e], PageLink(Trim(s[2..e])), e + 2)
  }

  ghost predicate UrlIs(s: Text, n: nat, from: nat, p: Span) {
    0 < n <= |s| && exists e: nat :: FirstAt(s, from, e, Ascii(")")) && p == Span(s[1..n], Link(s[from..e]), e + 1)
  }

  /** `[text](url)`, the text up to the first `]` and the url up to the first `)`. */
  ghost predicate LinkIs(s: Text, p: Span) {
    OccursAt(s, 0, Ascii("[")) &&
    exists n: nat :: FirstAt(s, 1, n, Ascii("]")) && OccursAt(s, n + 1, Ascii("(")) && UrlIs(s, n, n + 2, p)
  }

  function MarkerOf(k: nat): Text
    requires k < |PAIRS|
  {
    Ascii(PAIRS[k].0)
  }

  /** The `k`th marker around what lies before its next occurrence, if anything does. */
  ghost predicate PairIs(s: Text, k: nat, p: Span)
    requires k < |PAIRS|
  {
    var m := MarkerOf(k);
    OccursAt(s, 0, m) &&
    exists e: nat :: |m| < e && FirstAt(s, |m|, e, m) && p == Span(s[|m|..e], PAIRS[k].1, e + |m|)
  }

  ghost predicate NoPairBefore(s: Text, k: nat)
    requires k <= |PAIRS|
  {
    forall j, q :: 0 <= j < k ==> !PairIs(s, j, q)
  }

  /** A page link before a link before a pair, and of the pairs the first listed. */
  ghost predicate MarkedIs(s: Text, p: Span) {
    if exists q :: PageLinkIs(s, q) then PageLinkIs(s, p)
    else if exists q :: LinkIs(s, q) then LinkIs(s, p)
    else exists k :: 0 <= k < |PAIRS| && PairIs(s, k, p) && NoPairBefore(s, k)
  }

  /** The text starts with the body and the first mark is over it. */
  predicate Shows(p: Span, at: nat, text: Text, marks: seq<Mark>) {
    p.body <= text && marks != [] && marks[0] == Mark(p.kind, at, at + |p.body|)
  }

  // Which marked bodies a text starts with.
  type Marking = (Text, Span) -> bool

  /** What `s` reads as where the text so far is `at` bytes long: a marked body adds itself
      and a mark over it, any other byte adds itself. */
  ghost predicate Reading(marked: Marking, s: Text, at: nat, text: Text, marks: seq<Mark>)
    decreases |s|
  {
    if s == [] then text == [] && marks == []
    else if exists p :: marked(s, p) then
      var p :| marked(s, p);
      && 0 < p.size <= |s| && Shows(p, at, text, marks)
      && Reading(marked, s[p.size..], at + |p.body|, text[|p.body|..], marks[1..])
    else text != [] && text[0] == s[0] && Reading(marked, s[1..], at + 1, text[1..], marks)
  }

  // ----- The pieces read are those

  function SpanOf(p: Piece): Span
    requires p.Marked?
  {
    Span(p.body, p.kind, p.Size())
  }

  lemma {:induction false} IndexExactly(s: Text, from: nat, pat: Text, e: nat)
    requires pat != [] && from <= |s|
    ensures FirstAt(s, from, e, pat) <==> Index(s[from..], pat).Some? && e == from + Index(s[from..], pat).value
    decreases |s| - from
  {
    assert OccursAt(s, from, pat) <==> pat <= s[from..];
    if !OccursAt(s, from, pat) && from < |s| {
      assert s[from..][1..] == s[from + 1..];
      IndexExactly(s, from + 1, pat, e);
    }
  }

  lemma MarkersAsAscii()
    ensures Ascii("[[") == [OPEN, OPEN] && Ascii("]]") == [CLOSE, CLOSE]
    ensures Ascii("[") == [OPEN] && Ascii("]") == [CLOSE] && Ascii("(") == [LEFT] && Ascii(")") == [RIGHT]
    ensures |DELIMS| == |PAIRS| && forall k :: 0 <= k < |PAIRS| ==> DELIMS[k] == Delim(MarkerOf(k), PAIRS[k].1)
  {
  }

  lemma PageLinkExactly(s: Text, p: Span)
    ensures PageLinkIs(s, p) <==> PageLinkAt(s).Some? && p == SpanOf(PageLinkAt(s).value)
  {
    MarkersAsAscii();
    assert OccursAt(s, 0, [OPEN, OPEN]) <==> [OPEN, OPEN] <= s;
    if [OPEN, OPEN] <= s {
      forall e: nat ensures FirstAt(s, 2, e, [CLOSE, CLOSE]) <==>
                Index(s[2..], [CLOSE, CLOSE]).Some? && e == 2 + Index(s[2..], [CLOSE, CLOSE]).value {
        IndexExactly(s, 2, [CLOSE, CLOSE], e);
      }
      if Index(s[2..], [CLOSE, CLOSE]).Some? {
        var end := Index(s[2..], [CLOSE, CLOSE]).value;
        assert s[2..][..end] == s[2..2 + end];
      }
    }
  }

  lemma PairExactly(s: Text, k: nat, p: Span)
    requires k < |PAIRS|
    ensures |DELIMS| == |PAIRS|
    ensures PairIs(s, k, p) <==> PairAt(s, DELIMS[k]).Some? && p == SpanOf(PairAt(s, DELIMS[k]).value)
  {
    MarkersAsAscii();
    var m := MarkerOf(k);
    assert m == DELIMS[k].mark;
    assert OccursAt(s, 0, m) <==> m <= s;
    if m <= s {
      forall e: nat ensures FirstAt(s, |m|, e, m) <==> Index(s[|m|..], m).Some? && e == |m| + Index(s[|m|..], m).value {
        IndexExactly(s, |m|, m, e);
      }
      if Index(s[|m|..], m).Some? {
        var end := Index(s[|m|..], m).value;
        assert s[|m|..][..end] == s[|m|..|m| + end];
      }
    }
  }

  lemma CloseFound(s: Text, n: nat)
    requires s != [] && s[0] == OPEN
    ensures FirstAt(s, 1, n, [CLOSE]) <==> Index(s, [CLOSE]) == Some(n)
  {
    assert s[0..] == s;
    IndexExactly(s, 0, [CLOSE], n);
    assert !OccursAt(s, 0, [CLOSE]);
  }

  lemma UrlExactly(s: Text, n: nat, from: nat, p: Span)
    requires 0 < n && from == n + 2 <= |s|
    ensures UrlIs(s, n, from, p) <==>
              && Index(s[from..], [RIGHT]).Some?
              && var url := s[from..][..Index(s[from..], [RIGHT]).value];
                p == Span(s[..n][1..], Link(url), from + |url| + 1)
  {
    MarkersAsAscii();
    forall e: nat ensures FirstAt(s, from, e, [RIGHT]) <==>
              Index(s[from..], [RIGHT]).Some? && e == from + Index(s[from..], [RIGHT]).value {
      IndexExactly(s, from, [RIGHT], e);
    }
    assert s[..n][1..] == s[1..n];
    if Index(s[from..], [RIGHT]).Some? {
      var end := Index(s[from..], [RIGHT]).value;
      assert s[from..][..end] == s[from..from + end];
    }
  }

  lemma LinkExactly(s: Text, p: Span)
    requires s != []
    ensures LinkIs(s, p) <==> s[0] == OPEN && LinkAt(s).Some? && p == SpanOf(LinkAt(s).value)
  {
    MarkersAsAscii();
    assert OccursAt(s, 0, [OPEN]) <==> s[0] == OPEN;
    if s[0] == OPEN {
      forall n: nat ensures FirstAt(s, 1, n, [CLOSE]) <==> Index(s, [CLOSE]) == Some(n) {
        CloseFound(s, n);
      }
      if Index(s, [CLOSE]).Some? {
        var n := Index(s, [CLOSE]).value;
        assert OccursAt(s, n + 1, [LEFT]) <==> n + 1 < |s| && s[n + 1] == LEFT;
        assert FirstAt(s, 1, n, [CLOSE]);
        if n + 1 < |s| {
          UrlExactly(s, n, n + 2, p);
        }
      }
    }
  }

  /** The first pair that is there. */
  lemma {:induction false} FirstPair(s: Text, k: nat) returns (i: nat)
    requires k <= |DELIMS|
    ensures k <= i <= |DELIMS| && forall j :: k <= j < i ==> PairAt(s, DELIMS[j]).None?
    ensures if i < |DELIMS| then PairFrom(s, k) == PairAt(s, DELIMS[i]) && PairAt(s, DELIMS[i]).Some? else PairFrom(s, k).None?
    decreases |DELIMS| - k
  {
    i := k;
    if k < |DELIMS| && PairAt(s, DELIMS[k]).None? {
      i := FirstPair(s, k + 1);
    }
  }

  lemma NoPairExactly(s: Text, k: nat)
    requires k <= |PAIRS|
    ensures |DELIMS| == |PAIRS|
    ensures NoPairBefore(s, k) <==> forall j :: 0 <= j < k ==> PairAt(s, DELIMS[j]).None?
  {
    MarkersAsAscii();
    forall j, q | 0 <= j < k ensures PairIs(s, j, q) <==> PairAt(s, DELIMS[j]).Some? && q == SpanOf(PairAt(s, DELIMS[j]).value) {
      PairExactly(s, j, q);
    }
    if j :| 0 <= j < k && PairAt(s, DELIMS[j]).Some? {
      assert PairIs(s, j, SpanOf(PairAt(s, DELIMS[j]).value));
    }
  }

  lemma PairsExactly(s: Text, p: Span)
    ensures PairFrom(s, 0).Some? && p == SpanOf(PairFrom(s, 0).value) <==>
              exists i :: 0 <= i < |PAIRS| && PairIs(s, i, p) && NoPairBefore(s, i)
    ensures PairFrom(s, 0).Some? <==> !NoPairBefore(s, |PAIRS|)
  {
    MarkersAsAscii();
    var n := FirstPair(s, 0);
    NoPairExactly(s, |PAIRS|);
    if n < |PAIRS| {
      NoPairExactly(s, n);
      PairExactly(s, n, p);
    }
    forall i | 0 <= i < |PAIRS| && PairIs(s, i, p) && NoPairBefore(s, i) ensures i == n {
      NoPairExactly(s, i);
      PairExactly(s, i, p);
    }
  }

  /** The piece read is marked exactly when a marker takes effect, and is then that one. */
  lemma MarkedExactly(s: Text, p: Span)
    requires s != []
    ensures MarkedIs(s, p) <==> First(s).Marked? && p == SpanOf(First(s))
  {
    forall q ensures PageLinkIs(s, q) <==> PageLinkAt(s).Some? && q == SpanOf(PageLinkAt(s).value) {
      PageLinkExactly(s, q);
    }
    forall q ensures LinkIs(s, q) <==> s[0] == OPEN && LinkAt(s).Some? && q == SpanOf(LinkAt(s).value) {
      LinkExactly(s, q);
    }
    if PageLinkAt(s).Some? {
      assert PageLinkIs(s, SpanOf(PageLinkAt(s).value));
    } else if s[0] == OPEN && LinkAt(s).Some? {
      assert LinkIs(s, SpanOf(LinkAt(s).value));
    } else {
      PairsExactly(s, p);
    }
  }

  /** A byte is read as itself exactly when it starts no page link and no link, and no
      marker starting there has its next occurrence behind something. */
  lemma LiteralExactly(s: Text)
    requires s != []
    ensures First(s) == Literal(s[0]) <==>
      && (forall p :: !PageLinkIs(s, p)) && (forall p :: !LinkIs(s, p))
      && (forall k, p :: 0 <= k < |PAIRS| ==> !PairIs(s, k, p))
  {
    forall q ensures PageLinkIs(s, q) <==> PageLinkAt(s).Some? && q == SpanOf(PageLinkAt(s).value) {
      PageLinkExactly(s, q);
    }
    forall q ensures LinkIs(s, q) <==> s[0] == OPEN && LinkAt(s).Some? && q == SpanOf(LinkAt(s).value) {
      LinkExactly(s, q);
    }
    PairsExactly(s, Span([], Bold, 0));
    if PageLinkAt(s).Some? {
      assert PageLinkIs(s, SpanOf(PageLinkAt(s).value));
    } else if s[0] == OPEN && LinkAt(s).Some? {
      assert LinkIs(s, SpanOf(LinkAt(s).value));
    }
  }

  // ----- The whole line

  /** `p` is read exactly where the marking says so. */
  ghost predicate Agrees(marked: Marking, s: Text, p: Piece) {
    && 0 < p.Size() <= |s| && (p.Literal? ==> p.b == s[0])
    && forall q :: marked(s, q) <==> p.Marked? && q == SpanOf(p)
  }

  ghost predicate ReadsAs(read: Reader, marked: Marking) {
    forall s: Text {:trigger read(s)} :: s != [] ==> Agrees(marked, s, read(s))
  }

  lemma MarkedReading(marked: Marking, s: Text, at: nat, text: Text, marks: seq<Mark>, p: Piece)
    requires s != [] && Agrees(marked, s, p) && p.Marked?
    ensures Reading(marked, s, at, text, marks) <==>
              && Shows(SpanOf(p), at, text, marks)
              && Reading(marked, s[p.Size()..], at + |p.body|, text[|p.body|..], marks[1..])
  {
    assert marked(s, SpanOf(p));
  }

  lemma LiteralReading(marked: Marking, s: Text, at: nat, text: Text, marks: seq<Mark>, p: Piece)
    requires s != [] && Agrees(marked, s, p) && p.Literal?
    ensures Reading(marked, s, at, text, marks) <==>
              text != [] && text[0] == s[0] && Reading(marked, s[1..], at + 1, text[1..], marks)
  {
  }

  /** A text and marks are those of a line when its first piece shows and they go on as the rest. */
  lemma ShownAndRest(p: Piece, rest: Line, at: nat, next: nat, text: Text, marks: seq<Mark>)
    requires p.Marked? && next == at + |p.body|
    ensures text == TextOf(More(p, rest)) && marks == MarksFrom(More(p, rest), at) <==>
              Shows(SpanOf(p), at, text, marks) && text[|p.body|..] == TextOf(rest) && marks[1..] == MarksFrom(rest, next)
  {
    var later := MarksFrom(rest, next);
    assert marks == [Mark(p.kind, at, next)] + later <==> marks != [] && marks[0] == Mark(p.kind, at, next) && marks[1..] == later;
  }

  lemma ByteAndRest(b: Byte, rest: Line, at: nat, text: Text, marks: seq<Mark>)
    ensures text == TextOf(More(Literal(b), rest)) && marks == MarksFrom(More(Literal(b), rest), at) <==>
              text != [] && text[0] == b && text[1..] == TextOf(rest) && marks == MarksFrom(rest, at + 1)
  {
    assert [] + MarksFrom(rest, at + 1) == MarksFrom(rest, at + 1);
  }

  /** The text and marks of the pieces from `i` on. */
  ghost predicate AsPieces(read: Reader, s: Text, i: nat, at: nat, text: Text, marks: seq<Mark>)
    requires Advances(read) && i <= |s|
  {
    text == TextOf(Pieces(read, s, i)) && marks == MarksFrom(Pieces(read, s, i), at)
  }

  lemma {:induction false} ReadingExactly(read: Reader, marked: Marking, s: Text, i: nat, at: nat, text: Text, marks: seq<Mark>)
    requires Advances(read) && ReadsAs(read, marked) && i <= |s|
    ensures Reading(marked, s[i..], at, text, marks) <==> AsPieces(read, s, i, at, text, marks)
    decreases |s| - i
  {
    if i < |s| {
      var t := s[i..];
      var p, next := read(t), Next(read, s, i);
      var rest := Pieces(read, s, next);
      assert t[p.Size()..] == s[next..];
      if p.Marked? {
        MarkedReading(marked, t, at, text, marks, p);
        ShownAndRest(p, rest, at, at + |p.body|, text, marks);
        if Shows(SpanOf(p), at, text, marks) {
          ReadingExactly(read, marked, s, next, at + |p.body|, text[|p.body|..], marks[1..]);
        }
      } else {
        LiteralReading(marked, t, at, text, marks, p);
        ByteAndRest(p.b, rest, at, text, marks);
        if text != [] {
          ReadingExactly(read, marked, s, next, at + 1, text[1..], marks);
        }
      }
    }
  }

  lemma FirstReadsAs()
    ensures ReadsAs(First, MarkedIs)
  {
    FirstAdvances();
    forall s: Text | s != [] ensures Agrees(MarkedIs, s, First(s)) {
      forall q ensures MarkedIs(s, q) <==> First(s).Marked? && q == SpanOf(First(s)) {
        MarkedExactly(s, q);
      }
    }
  }

  /** A line is parsed to the one text and marks it reads as. */
  lemma ParsedIsReading(s: Text, c: Content)
    ensures Reading(MarkedIs, s, 0, c.text, c.marks) <==> c == Parsed(s)
  {
    FirstAdvances();
    FirstReadsAs();
    ReadingExactly(First, MarkedIs, s, 0, 0, c.text, c.marks);
    assert s[0..] == s;
  }
}
