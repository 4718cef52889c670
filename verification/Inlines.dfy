// Inline markup of one line: paired markers, links and page links, read into
// plain text and marks over byte offsets.

module Inlines {
  import opened Options
  import opened Sequences
  import opened Trims

  datatype MarkKind = Bold | Italic | Strike | Code | Link(url: Text) | PageLink(title: Text)

  datatype Mark = Mark(kind: MarkKind, start: nat, end: nat)

  datatype Content = Content(text: Text, marks: seq<Mark>)

  const STAR: Byte := 42
  const TILDE: Byte := 126
  const TICK: Byte := 96
  const UNDERSCORE: Byte := 95
  const OPEN: Byte := 91
  const CLOSE: Byte := 93
  const LEFT: Byte := 40
  const RIGHT: Byte := 41

  datatype Delim = Delim(mark: Text, kind: MarkKind)

  /** The paired markers, longest first. */
  const DELIMS: seq<Delim> := [
    Delim([STAR, STAR], Bold), Delim([TILDE, TILDE], Strike), Delim([TICK], Code),
    Delim([STAR], Italic), Delim([UNDERSCORE], Italic)]

  predicate IsMarker(b: Byte) {
    b == STAR || b == TILDE || b == TICK || b == UNDERSCORE || b == OPEN
  }

  /** Where `pat` first occurs in `s`. */
  function Index(s: Text, pat: Text): (r: Option<nat>)
    requires pat != []
    ensures r.Some? ==> r.value + |pat| <= |s|
  {
    if pat <= s then Some(0)
    else if s == [] then None
    else
      var r := Index(s[1..], pat);
      if r.Some? then Some(r.value + 1) else None
  }

  lemma {:induction false} IndexFinds(s: Text, pat: Text)
    requires pat != [] && Index(s, pat).Some?
    ensures var k := Index(s, pat).value; s == s[..k] + pat + s[k + |pat|..]
  {
    if !(pat <= s) {
      IndexFinds(s[1..], pat);
    }
  }

  lemma {:induction false} IndexIsFirst(s: Text, pat: Text, k: nat)
    requires pat != [] && k < |s| && pat <= s[k..]
    ensures Index(s, pat).Some? && Index(s, pat).value <= k
  {
    if !(pat <= s) {
      assert s[1..][k - 1..] == s[k..];
      IndexIsFirst(s[1..], pat, k - 1);
    }
  }

  // ----- The pieces of a line

  // A literal byte, or a marked body between what opens and closes it.
  datatype Piece =
    | Literal(b: Byte)
    | Marked(open: Text, body: Text, close: Text, kind: MarkKind)
  {
    function Source(): Text {
      if Literal? then [b] else open + body + close
    }

    /** How many bytes of the line it takes. */
    function Size(): nat {
      if Literal? then 1 else |open| + |body| + |close|
    }

    function Shown(): Text {
      if Literal? then [b] else body
    }
  }

  /** `[[title]]` at the start of `s`. */
  function PageLinkAt(s: Text): (p: Option<Piece>)
    ensures p.Some? ==> p.value.Marked? && 0 < p.value.Size() <= |s|
  {
    if [OPEN, OPEN] <= s then
      match Index(s[2..], [CLOSE, CLOSE])
      case None => None
      case Some(end) => Some(Marked([OPEN, OPEN], s[2..][..end], [CLOSE, CLOSE], PageLink(Trim(s[2..][..end]))))
    else None
  }

  /** `[text](url)` at the start of `s`. */
  function LinkAt(s: Text): (p: Option<Piece>)
    requires s != [] && s[0] == OPEN
    ensures p.Some? ==> p.value.Marked? && 0 < p.value.Size() <= |s|
  {
    match Index(s, [CLOSE])
    case None => None
    case Some(closeText) =>
      if closeText + 1 >= |s| || s[closeText + 1] != LEFT then None
      else
        match Index(s[closeText + 2..], [RIGHT])
        case None => None
        case Some(closeUrl) =>
          var url := s[closeText + 2..][..closeUrl];
          Some(Marked([OPEN], s[..closeText][1..], [CLOSE, LEFT] + url + [RIGHT], Link(url)))
  }

  /** The pair `d` around a body that is not empty, at the start of `s`. */
  function PairAt(s: Text, d: Delim): (p: Option<Piece>)
    requires d.mark != []
    ensures p.Some? ==> p.value.Marked? && p.value.body != [] && 0 < p.value.Size() <= |s|
  {
    if d.mark <= s then
      match Index(s[|d.mark|..], d.mark)
      case None => None
      case Some(end) => if end == 0 then None else Some(Marked(d.mark, s[|d.mark|..][..end], d.mark, d.kind))
    else None
  }

  /** The first of the pairs from the `k`th on that is there. */
  function PairFrom(s: Text, k: nat): (p: Option<Piece>)
    requires k <= |DELIMS|
    ensures p.Some? ==> p.value.Marked? && p.value.body != [] && 0 < p.value.Size() <= |s|
    decreases |DELIMS| - k
  {
    if k == |DELIMS| then None
    else
      var p := PairAt(s, DELIMS[k]);
      if p.Some? then p else PairFrom(s, k + 1)
  }

  /** Any piece at all that starts with a marker. */
  function MarkedAt(s: Text): (p: Option<Piece>)
    requires s != []
    ensures p.Some? ==> p.value.Marked? && 0 < p.value.Size() <= |s|
  {
    if PageLinkAt(s).Some? then PageLinkAt(s)
    else if s[0] == OPEN && LinkAt(s).Some? then LinkAt(s)
    else PairFrom(s, 0)
  }

  /** The piece at the start of `s`. */
  function First(s: Text): (p: Piece)
    ensures s != [] ==> 0 < p.Size() <= |s|
  {
    if s == [] then Literal(0)
    else
      match MarkedAt(s)
      case Some(p) => p
      case None => Literal(s[0])
  }

  // What follows holds of any way to read the next piece that advances.
  type Reader = Text -> Piece

  ghost predicate Advances(read: Reader) {
    forall s: Text {:trigger read(s)} :: s != [] ==> 0 < read(s).Size() <= |s|
  }

  /** The offset after the piece at `i`. */
  function Next(read: Reader, s: Text, i: nat): (j: nat)
    requires Advances(read) && i < |s|
    ensures i < j <= |s|
  {
    i + read(s[i..]).Size()
  }

  // A line cut into pieces.
  datatype Line = End | More(first: Piece, rest: Line)

  /** The pieces from offset `i` on. */
  function Pieces(read: Reader, s: Text, i: nat): Line
    requires Advances(read) && i <= |s|
    decreases |s| - i
  {
    if i == |s| then End else More(read(s[i..]), Pieces(read, s, Next(read, s, i)))
  }

  function SourceOf(ps: Line): Text {
    if ps.End? then [] else ps.first.Source() + SourceOf(ps.rest)
  }

  function TextOf(ps: Line): Text {
    if ps.End? then [] else ps.first.Shown() + TextOf(ps.rest)
  }

  /** The mark of a piece whose text starts at offset `at`. */
  function MarkOf(p: Piece, at: nat): seq<Mark> {
    if p.Marked? then [Mark(p.kind, at, at + |p.body|)] else []
  }

  /** The marks of the pieces when their text starts at offset `at`. */
  function MarksFrom(ps: Line, at: nat): seq<Mark> {
    if ps.End? then []
    else MarkOf(ps.first, at) + MarksFrom(ps.rest, at + |ps.first.Shown()|)
  }

  function PiecesOf(s: Text): Line {
    Pieces(First, s, 0)
  }

  function Parsed(s: Text): Content {
    Content(TextOf(PiecesOf(s)), MarksFrom(PiecesOf(s), 0))
  }

  // ----- The loop

  /** Text and marks collected so far, with the pieces `left` to come. */
  ghost predicate Collected(all: Line, left: Line, text: Text, marks: seq<Mark>) {
    text + TextOf(left) == TextOf(all) && marks + MarksFrom(left, |text|) == MarksFrom(all, 0)
  }

  lemma Collect(all: Line, left: Line, text: Text, marks: seq<Mark>)
    requires left.More? && Collected(all, left, text, marks)
    ensures Collected(all, left.rest, text + left.first.Shown(), marks + MarkOf(left.first, |text|))
  {
  }

  method ParseInline(src: Text) returns (c: Content)
    ensures c == Parsed(src)
  {
    var text: Text, marks: seq<Mark> := [], [];
    var i := 0;
    ghost var all, left := PiecesOf(src), PiecesOf(src);
    while i < |src|
      invariant 0 <= i <= |src| && left == Pieces(First, src, i) && Collected(all, left, text, marks)
    {
      Collect(all, left, text, marks);
      var p;
      p, i := ReadPiece(src, i, left);
      text, marks := Show(p, text, marks);
      left := left.rest;
    }
    c := Content(text, marks);
  }

  /** Writes the text of a piece, with a mark over it where it has one. */
  method Show(p: Piece, text: Text, marks: seq<Mark>) returns (longer: Text, more: seq<Mark>)
    ensures longer == text + p.Shown() && more == marks + MarkOf(p, |text|)
  {
    longer, more := text + p.Shown(), marks;
    if p.Marked? {
      more := marks + [Mark(p.kind, |text|, |longer|)];
    }
  }

  /** The piece at offset `i`: a page link, a link, the first pair that is there,
      or a literal byte; and the offset after it. */
  method ReadPiece(src: Text, i: nat, ghost left: Line) returns (p: Piece, next: nat)
    requires i < |src| && left == Pieces(First, src, i)
    ensures left.More? && p == left.first
    ensures i < next <= |src| && left.rest == Pieces(First, src, next)
  {
    p := FirstPiece(src[i..]);
    FirstAdvances();
    PiecesStep(First, src, i);
    next := i + p.Size();
    assert next == Next(First, src, i);
  }

  method FirstPiece(s: Text) returns (p: Piece)
    requires s != []
    ensures p == First(s)
  {
    var found := FindMarked(s);
    p := if found.Some? then found.value else Literal(s[0]);
  }

  lemma FirstAdvances()
    ensures Advances(First)
  {
  }

  lemma PiecesStep(read: Reader, s: Text, i: nat)
    requires Advances(read) && i < |s|
    ensures Pieces(read, s, i) == More(read(s[i..]), Pieces(read, s, Next(read, s, i)))
  {
  }

  method FindMarked(s: Text) returns (p: Option<Piece>)
    requires s != []
    ensures p == MarkedAt(s)
  {
    p := PageLinkAt(s);
    if p.None? && s[0] == OPEN {
      p := LinkAt(s);
    }
    var k := 0;
    while p.None? && k < |DELIMS|
      invariant 0 <= k <= |DELIMS|
      invariant if p.Some? then p == MarkedAt(s) else MarkedAt(s) == PairFrom(s, k)
    {
      p := PairAt(s, DELIMS[k]);
      k := k + 1;
    }
  }

  // ----- Only markers are removed

  /** `t` is `s` with bytes deleted. */
  ghost predicate Thinned(t: Text, s: Text) {
    t == [] || (s != [] && ((t[0] == s[0] && Thinned(t[1..], s[1..])) || Thinned(t, s[1..])))
  }

  lemma {:induction false} ThinnedPrefixed(t: Text, extra: Text, s: Text)
    requires Thinned(t, s)
    ensures Thinned(t, extra + s)
  {
    if extra != [] {
      ThinnedPrefixed(t, extra[1..], s);
      assert (extra + s)[1..] == extra[1..] + s;
    } else {
      assert extra + s == s;
    }
  }

  lemma {:induction false} ThinnedShared(x: Text, t: Text, s: Text)
    requires Thinned(t, s)
    ensures Thinned(x + t, x + s)
  {
    if x != [] {
      ThinnedShared(x[1..], t, s);
      assert (x + t)[1..] == x[1..] + t && (x + s)[1..] == x[1..] + s;
    } else {
      assert x + t == t && x + s == s;
    }
  }

  lemma SourceIsPrefix(open: Text, body: Text, close: Text, rest: Text)
    ensures open + body + close <= open + (body + close + rest)
  {
    Regroup(open, body + close, rest);
    Regroup(open, body, close);
  }

  lemma PageLinkIsPrefix(s: Text)
    requires PageLinkAt(s).Some?
    ensures PageLinkAt(s).value.Source() <= s
  {
    IndexFinds(s[2..], [CLOSE, CLOSE]);
    var end := Index(s[2..], [CLOSE, CLOSE]).value;
    assert s == [OPEN, OPEN] + s[2..];
    SourceIsPrefix([OPEN, OPEN], s[2..][..end], [CLOSE, CLOSE], s[2..][end + 2..]);
  }

  lemma LinkIsPrefix(s: Text)
    requires s != [] && s[0] == OPEN && LinkAt(s).Some?
    ensures LinkAt(s).value.Source() <= s
  {
    var n := Index(s, [CLOSE]).value;
    IndexFinds(s, [CLOSE]);
    IndexFinds(s[n + 2..], [RIGHT]);
    var url := LinkAt(s).value.kind.url;
    LinkJoins(s, n, url);
  }

  lemma LinkJoins(s: Text, n: nat, url: Text)
    requires 0 < n && n + 1 < |s| && s[0] == OPEN && s[n] == CLOSE && s[n + 1] == LEFT && url + [RIGHT] <= s[n + 2..]
    ensures [OPEN] + s[..n][1..] + ([CLOSE, LEFT] + url + [RIGHT]) <= s
  {
    var body, rest := s[..n][1..], s[n + 2..][|url| + 1..];
    assert s[..n] == [OPEN] + body;
    assert s[n + 2..] == url + [RIGHT] + rest;
    assert s == s[..n] + ([CLOSE, LEFT] + s[n + 2..]);
    Regroup([CLOSE, LEFT], url, [RIGHT]);
    Regroup([CLOSE, LEFT], url + [RIGHT], rest);
    Regroup([OPEN] + body, [CLOSE, LEFT] + url + [RIGHT], rest);
  }

  lemma {:induction false} PairIsPrefix(s: Text, k: nat)
    requires k <= |DELIMS| && PairFrom(s, k).Some?
    ensures PairFrom(s, k).value.Source() <= s
    decreases |DELIMS| - k
  {
    var d := DELIMS[k];
    if PairAt(s, d).Some? {
      IndexFinds(s[|d.mark|..], d.mark);
      assert s == d.mark + s[|d.mark|..];
    } else {
      PairIsPrefix(s, k + 1);
    }
  }

  lemma FirstIsPrefix(s: Text)
    requires s != []
    ensures First(s).Source() <= s
  {
    if PageLinkAt(s).Some? {
      PageLinkIsPrefix(s);
    } else if s[0] == OPEN && LinkAt(s).Some? {
      LinkIsPrefix(s);
    } else if PairFrom(s, 0).Some? {
      PairIsPrefix(s, 0);
    }
  }

  /** What is read is there. */
  ghost predicate ReadsPrefix(read: Reader) {
    forall s: Text {:trigger read(s)} :: s != [] ==> read(s).Source() <= s
  }

  lemma FirstReadsPrefix()
    ensures ReadsPrefix(First)
  {
    forall s: Text | s != [] ensures First(s).Source() <= s {
      FirstIsPrefix(s);
    }
  }

  /** The pieces are a cut of the whole line. */
  lemma {:induction false} PiecesCoverSource(read: Reader, s: Text, i: nat)
    requires Advances(read) && ReadsPrefix(read) && i <= |s|
    ensures SourceOf(Pieces(read, s, i)) == s[i..]
    decreases |s| - i
  {
    if i < |s| {
      PiecesCoverSource(read, s, Next(read, s, i));
      PieceCovers(read, s, i);
    }
  }

  lemma PieceCovers(read: Reader, s: Text, i: nat)
    requires Advances(read) && ReadsPrefix(read) && i < |s|
    ensures s[i..] == read(s[i..]).Source() + s[Next(read, s, i)..]
  {
  }

  lemma PieceThinned(p: Piece, t: Text, s: Text)
    requires Thinned(t, s)
    ensures Thinned(p.Shown() + t, p.Source() + s)
  {
    if p.Marked? {
      ThinnedPrefixed(t, p.close, s);
      ThinnedShared(p.body, t, p.close + s);
      ThinnedPrefixed(p.body + t, p.open, p.body + (p.close + s));
      assert p.Source() + s == p.open + (p.body + (p.close + s));
    } else {
      ThinnedShared([p.b], t, s);
    }
  }

  lemma {:induction false} ShownIsThinned(ps: Line)
    ensures Thinned(TextOf(ps), SourceOf(ps))
  {
    if ps.More? {
      ShownIsThinned(ps.rest);
      PieceThinned(ps.first, TextOf(ps.rest), SourceOf(ps.rest));
    }
  }

  /** The text is the line with bytes only deleted. */
  lemma TextIsThinnedSource(s: Text)
    ensures Thinned(Parsed(s).text, s)
  {
    FirstReadsPrefix();
    PiecesCoverSource(First, s, 0);
    ShownIsThinned(PiecesOf(s));
    assert s[0..] == s;
  }

  // ----- Marks

  /** In order, disjoint, and between `at` and `end`. */
  ghost predicate Ranged(marks: seq<Mark>, at: nat, end: nat) {
    if marks == [] then at <= end
    else at <= marks[0].start <= marks[0].end && Ranged(marks[1..], marks[0].end, end)
  }

  lemma RangedEarlier(marks: seq<Mark>, before: nat, at: nat, end: nat)
    requires before <= at && Ranged(marks, at, end)
    ensures Ranged(marks, before, end)
  {
  }

  lemma {:induction false} MarksAreRanged(ps: Line, at: nat)
    ensures Ranged(MarksFrom(ps, at), at, at + |TextOf(ps)|)
  {
    if ps.More? {
      var next := at + |ps.first.Shown()|;
      var later := MarksFrom(ps.rest, next);
      MarksAreRanged(ps.rest, next);
      if ps.first.Marked? {
        assert (MarkOf(ps.first, at) + later)[1..] == later;
      } else {
        assert [] + later == later;
        RangedEarlier(later, at, next, at + |TextOf(ps)|);
      }
    }
  }

  /** The marks of a line are in order, disjoint and inside its text. */
  lemma MarksInOrder(s: Text)
    ensures Ranged(Parsed(s).marks, 0, |Parsed(s).text|)
  {
    MarksAreRanged(PiecesOf(s), 0);
  }

  /** What gives a mark over nothing: a page link without a title, or a link
      without a text. */
  predicate EmptyLinkAt(s: Text) {
    [OPEN, OPEN, CLOSE, CLOSE] <= s || ([OPEN, CLOSE, LEFT] <= s && RIGHT in s[3..])
  }

  /** Reading from offset `i` comes to stand at offset `j`. */
  ghost predicate Reaches(read: Reader, s: Text, i: nat, j: nat)
    requires Advances(read) && i <= |s|
    decreases |s| - i
  {
    i < |s| && (i == j || Reaches(read, s, Next(read, s, i), j))
  }

  /** A mark over nothing comes out exactly when reading comes to stand at an empty
      link or an empty page link. */
  lemma EmptyMarkExactly(s: Text)
    ensures (exists m :: m in Parsed(s).marks && m.start == m.end)
        <==> (exists j :: 0 <= j < |s| && Reaches(First, s, 0, j) && EmptyLinkAt(s[j..]))
  {
    if m :| m in Parsed(s).marks && m.start == m.end {
      var j := EmptyMarkIsRead(s, m);
    }
    if j :| 0 <= j < |s| && Reaches(First, s, 0, j) && EmptyLinkAt(s[j..]) {
      var m := EmptyLinkMakesMark(s, j);
    }
  }

  lemma EmptyMarkIsRead(s: Text, m: Mark) returns (j: nat)
    requires m in Parsed(s).marks && m.start == m.end
    ensures j < |s| && Reaches(First, s, 0, j) && EmptyLinkAt(s[j..])
  {
    var p := MarkComesFrom(PiecesOf(s), 0, m);
    j := PieceIsRead(First, s, 0, p);
    EmptyPieceIsEmptyLink(s[j..]);
  }

  lemma EmptyLinkMakesMark(s: Text, j: nat) returns (m: Mark)
    requires j < |s| && Reaches(First, s, 0, j) && EmptyLinkAt(s[j..])
    ensures m in Parsed(s).marks && m.start == m.end
  {
    ReadPieceIsThere(First, s, 0, j);
    EmptyPieceIsEmptyLink(s[j..]);
    m := PieceMakesMark(PiecesOf(s), 0, First(s[j..]));
  }

  lemma IndexAtStart(s: Text, pat: Text)
    requires pat != []
    ensures Index(s, pat) == Some(0) <==> pat <= s
  {
  }

  lemma {:induction false} IndexOfByte(s: Text, b: Byte)
    ensures Index(s, [b]).Some? <==> b in s
  {
    if s != [] {
      assert [b] <= s <==> s[0] == b;
      IndexOfByte(s[1..], b);
      assert s == [s[0]] + s[1..];
    }
  }

  lemma EmptyPageLinkAt(s: Text)
    ensures PageLinkAt(s).Some? && PageLinkAt(s).value.body == [] <==> [OPEN, OPEN, CLOSE, CLOSE] <= s
  {
    if [OPEN, OPEN] <= s {
      IndexAtStart(s[2..], [CLOSE, CLOSE]);
      assert [CLOSE, CLOSE] <= s[2..] <==> [OPEN, OPEN] + [CLOSE, CLOSE] <= s;
    }
  }

  lemma EmptyTextAt(s: Text)
    requires s != [] && s[0] == OPEN
    ensures LinkAt(s).Some? && LinkAt(s).value.body == [] <==> [OPEN, CLOSE, LEFT] <= s && RIGHT in s[3..]
  {
    if Index(s, [CLOSE]).Some? {
      IndexFinds(s, [CLOSE]);
    }
    if [OPEN, CLOSE, LEFT] <= s {
      IndexIsFirst(s, [CLOSE], 1);
      IndexOfByte(s[3..], RIGHT);
    }
  }

  lemma EmptyPieceIsEmptyLink(s: Text)
    requires s != []
    ensures First(s).Marked? && First(s).body == [] <==> EmptyLinkAt(s)
  {
    EmptyPageLinkAt(s);
    assert [OPEN, OPEN] <= s ==> s[1] == OPEN;
    assert [OPEN, CLOSE, LEFT] <= s ==> s[0] == OPEN && s[1] == CLOSE;
    assert [OPEN, OPEN, CLOSE, CLOSE] <= s ==> s[0] == OPEN;
    if s[0] == OPEN {
      EmptyTextAt(s);
    }
  }

  predicate Has(ps: Line, p: Piece) {
    ps.More? && (ps.first == p || Has(ps.rest, p))
  }

  lemma {:induction false} MarkComesFrom(ps: Line, at: nat, m: Mark) returns (p: Piece)
    requires m in MarksFrom(ps, at)
    ensures Has(ps, p) && p.Marked? && p.kind == m.kind && |p.body| == m.end - m.start
  {
    if m in MarkOf(ps.first, at) {
      p := ps.first;
    } else {
      p := MarkComesFrom(ps.rest, at + |ps.first.Shown()|, m);
    }
  }

  lemma {:induction false} PieceIsRead(read: Reader, s: Text, i: nat, p: Piece) returns (j: nat)
    requires Advances(read) && i <= |s| && Has(Pieces(read, s, i), p)
    ensures i <= j < |s| && Reaches(read, s, i, j) && p == read(s[j..])
    decreases |s| - i
  {
    if p == read(s[i..]) {
      j := i;
    } else {
      j := PieceIsRead(read, s, Next(read, s, i), p);
    }
  }

  lemma {:induction false} ReadPieceIsThere(read: Reader, s: Text, i: nat, j: nat)
    requires Advances(read) && i <= |s| && Reaches(read, s, i, j)
    ensures i <= j < |s| && Has(Pieces(read, s, i), read(s[j..]))
    decreases |s| - i
  {
    if i != j {
      ReadPieceIsThere(read, s, Next(read, s, i), j);
    }
  }

  lemma {:induction false} PieceMakesMark(ps: Line, at: nat, p: Piece) returns (m: Mark)
    requires Has(ps, p) && p.Marked?
    ensures m in MarksFrom(ps, at) && m.kind == p.kind && m.end == m.start + |p.body|
  {
    if ps.first == p {
      m := Mark(p.kind, at, at + |p.body|);
      assert m in MarkOf(p, at);
    } else {
      m := PieceMakesMark(ps.rest, at + |ps.first.Shown()|, p);
    }
  }

  /** And it does: a page link without a title is a mark over nothing. */
  lemma EmptyPageLink()
    ensures Parsed([OPEN, OPEN, CLOSE, CLOSE]) == Content([], [Mark(PageLink([]), 0, 0)])
  {
    var p := Marked([OPEN, OPEN], [], [CLOSE, CLOSE], PageLink([]));
    assert SourceOf(More(p, End)) == [OPEN, OPEN, CLOSE, CLOSE];
    ReadsBackWhatIsWritten(More(p, End));
    assert MarksFrom(More(p, End), 0) == MarkOf(p, 0) + MarksFrom(End, 0);
    assert TextOf(More(p, End)) == [];
  }

  // ----- Writing pieces out and reading them back

  predicate PlainText(s: Text) {
    forall b :: b in s ==> !IsMarker(b) && b != CLOSE
  }

  /** A piece as a writer would make it: literal bytes and bodies without markers. */
  predicate Writable(p: Piece) {
    match p
    case Literal(b) => !IsMarker(b)
    case Marked(open, body, close, kind) =>
      PlainText(body)
      && match kind
         case Link(url) => open == [OPEN] && close == [CLOSE, LEFT] + url + [RIGHT] && RIGHT !in url
         case PageLink(title) => open == [OPEN, OPEN] && close == [CLOSE, CLOSE] && title == Trim(body)
         case _ => body != [] && open == close && Delim(open, kind) in DELIMS
  }

  /** The first occurrence of `pat` comes right after bytes that cannot start it. */
  lemma {:induction false} IndexAfter(x: Text, pat: Text, rest: Text)
    requires pat != [] && pat[0] !in x
    ensures Index(x + pat + rest, pat) == Some(|x|)
  {
    var s := x + pat + rest;
    if x == [] {
      assert s == pat + rest;
    } else {
      assert s[0] == x[0];
      assert s[1..] == x[1..] + pat + rest;
      IndexAfter(x[1..], pat, rest);
    }
  }

  lemma NotMarked(s: Text)
    requires s != [] && !IsMarker(s[0])
    ensures First(s) == Literal(s[0])
  {
  }

  lemma SourceOpens(p: Piece, rest: Text)
    requires p.Marked?
    ensures p.open <= p.Source() + rest && (p.Source() + rest)[|p.open|..] == p.body + p.close + rest
  {
    Regroup(p.open, p.body, p.close);
    Regroup(p.open, p.body + p.close, rest);
    Behind(p.open, p.body + p.close + rest);
  }

  lemma PageLinkThere(s: Text, body: Text, tail: Text)
    requires [OPEN, OPEN] <= s && s[2..] == body + tail && Index(s[2..], [CLOSE, CLOSE]) == Some(|body|)
    ensures PageLinkAt(s) == Some(Marked([OPEN, OPEN], body, [CLOSE, CLOSE], PageLink(Trim(body))))
  {
    assert s[2..][..|body|] == body;
  }

  lemma PageLinkRead(p: Piece, rest: Text)
    requires Writable(p) && p.Marked? && p.kind.PageLink?
    ensures First(p.Source() + rest) == p
  {
    var s := p.Source() + rest;
    SourceOpens(p, rest);
    IndexAfter(p.body, p.close, rest);
    Regroup(p.body, p.close, rest);
    PageLinkThere(s, p.body, p.close + rest);
  }

  lemma LinkTextRead(body: Text, tail: Text)
    requires PlainText(body)
    ensures Index([OPEN] + body + [CLOSE] + tail, [CLOSE]) == Some(|body| + 1)
  {
    IndexAfter([OPEN] + body, [CLOSE], tail);
  }

  lemma LinkSliced(body: Text, url: Text, rest: Text)
    ensures var s := [OPEN] + body + [CLOSE] + ([LEFT] + url + [RIGHT] + rest); var n := |body| + 1;
      && |s| > n + 1 && s[..n][1..] == body && s[n + 1] == LEFT && s[n + 2..] == url + [RIGHT] + rest
      && s[1] == if body == [] then CLOSE else body[0]
  {
  }

  lemma LinkRead(p: Piece, rest: Text)
    requires Writable(p) && p.Marked? && p.kind.Link?
    ensures (p.Source() + rest)[0] == OPEN && LinkAt(p.Source() + rest) == Some(p)
  {
    var url := p.kind.url;
    var s := [OPEN] + p.body + [CLOSE] + ([LEFT] + url + [RIGHT] + rest);
    assert p.Source() + rest == s;
    LinkTextRead(p.body, [LEFT] + url + [RIGHT] + rest);
    LinkSliced(p.body, url, rest);
    IndexAfter(url, [RIGHT], rest);
    assert (url + [RIGHT] + rest)[..|url|] == url;
  }

  lemma NotPrefix(x: Text, s: Text, i: nat)
    requires i < |x| && i < |s| && x[i] != s[i]
    ensures !(x <= s)
  {
  }

  lemma LinkIsFirst(p: Piece, rest: Text)
    requires Writable(p) && p.Marked? && p.kind.Link?
    ensures First(p.Source() + rest) == p
  {
    var s := p.Source() + rest;
    LinkRead(p, rest);
    assert s[1] == if p.body == [] then CLOSE else p.body[0];
    assert p.body != [] ==> p.body[0] in p.body;
    NotPrefix([OPEN, OPEN], s, 1);
    assert PageLinkAt(s).None?;
  }

  /** A pair whose body holds no marker is read as itself, whatever the pairs before it. */
  lemma PairRead(p: Piece, k: nat, rest: Text)
    requires Writable(p) && p.Marked? && k < |DELIMS| && DELIMS[k] == Delim(p.open, p.kind)
    ensures PairAt(p.Source() + rest, DELIMS[k]) == Some(p)
  {
    var s := p.Source() + rest;
    SourceOpens(p, rest);
    IndexAfter(p.body, p.close, rest);
    Regroup(p.body, p.close, rest);
    PairThere(s, DELIMS[k], p.body, p.close + rest);
  }

  lemma PairThere(s: Text, d: Delim, body: Text, tail: Text)
    requires d.mark != [] && body != [] && d.mark <= s && s[|d.mark|..] == body + tail
    requires Index(s[|d.mark|..], d.mark) == Some(|body|)
    ensures PairAt(s, d) == Some(Marked(d.mark, body, d.mark, d.kind))
  {
    assert s[|d.mark|..][..|body|] == body;
  }

  lemma EarlierPairsAbsent(p: Piece, k: nat, rest: Text, j: nat)
    requires Writable(p) && p.Marked? && j < k < |DELIMS| && DELIMS[k] == Delim(p.open, p.kind)
    ensures PairAt(p.Source() + rest, DELIMS[j]).None?
  {
    var s := p.Source() + rest;
    SourceOpens(p, rest);
    assert s[|p.open|] == s[|p.open|..][0] == p.body[0] && p.body[0] in p.body;
    NotPrefix(DELIMS[j].mark, s, if s[0] != DELIMS[j].mark[0] then 0 else 1);
  }

  lemma {:induction false} PairFound(p: Piece, k: nat, rest: Text, j: nat)
    requires Writable(p) && p.Marked? && j <= k < |DELIMS| && DELIMS[k] == Delim(p.open, p.kind)
    ensures PairFrom(p.Source() + rest, j) == Some(p)
    decreases k - j
  {
    if j == k {
      PairRead(p, k, rest);
    } else {
      EarlierPairsAbsent(p, k, rest, j);
      PairFound(p, k, rest, j + 1);
    }
  }

  lemma FirstRead(p: Piece, rest: Text)
    requires Writable(p)
    ensures First(p.Source() + rest) == p
  {
    if p.Literal? {
      NotMarked(p.Source() + rest);
    } else if p.kind.PageLink? {
      PageLinkRead(p, rest);
    } else if p.kind.Link? {
      LinkIsFirst(p, rest);
    } else {
      var k :| 0 <= k < |DELIMS| && DELIMS[k] == Delim(p.open, p.kind);
      PairFound(p, k, rest, 0);
      assert (p.Source() + rest)[0] == p.open[0];
    }
  }

  predicate AllWritable(ps: Line) {
    ps.More? ==> Writable(ps.first) && AllWritable(ps.rest)
  }

  ghost predicate ReadsWritten(read: Reader) {
    forall p, rest: Text :: Writable(p) ==> read(p.Source() + rest) == p
  }

  lemma {:induction false} ReadsBack(read: Reader, ps: Line, before: Text)
    requires Advances(read) && ReadsWritten(read) && AllWritable(ps)
    ensures Pieces(read, before + SourceOf(ps), |before|) == ps
    decreases ps
  {
    if ps.More? {
      var p, rest := ps.first, SourceOf(ps.rest);
      ReadsBack(read, ps.rest, before + p.Source());
      Regroup(before, p.Source(), rest);
      assert (before + (p.Source() + rest))[|before|..] == p.Source() + rest;
      assert read(p.Source() + rest) == p;
    }
  }

  /** Written out and read back, the pieces are the same. */
  lemma ReadsBackWhatIsWritten(ps: Line)
    requires AllWritable(ps)
    ensures PiecesOf(SourceOf(ps)) == ps
  {
    forall p, rest: Text | Writable(p) ensures First(p.Source() + rest) == p {
      FirstRead(p, rest);
    }
    ReadsBack(First, ps, []);
    assert [] + SourceOf(ps) == SourceOf(ps);
  }

  /** A line without markers is its own text. */
  lemma NoMarkersNoMarks(s: Text)
    requires forall b :: b in s ==> !IsMarker(b)
    ensures Parsed(s) == Content(s, [])
  {
    FirstLeavesPlain();
    PlainPieces(First, s, 0);
    LiteralsAreText(s, End, 0);
    assert s[0..] == s;
  }

  /** A byte that is no marker is read as itself. */
  ghost predicate LeavesPlain(read: Reader) {
    forall s: Text {:trigger read(s)} :: s != [] && !IsMarker(s[0]) ==> read(s) == Literal(s[0])
  }

  lemma FirstLeavesPlain()
    ensures LeavesPlain(First)
  {
  }

  /** The bytes of `s` as literals, then `later`. */
  function Literals(s: Text, later: Line): Line {
    if s == [] then later else More(Literal(s[0]), Literals(s[1..], later))
  }

  lemma {:induction false} PlainPieces(read: Reader, s: Text, i: nat)
    requires Advances(read) && LeavesPlain(read) && i <= |s| && forall b :: b in s ==> !IsMarker(b)
    ensures Pieces(read, s, i) == Literals(s[i..], End)
    decreases |s| - i
  {
    if i < |s| {
      assert s[i..][0] == s[i] && s[i] in s;
      PlainPieces(read, s, i + 1);
      assert s[i..][1..] == s[i + 1..];
    }
  }

  lemma {:induction false} LiteralsAreText(s: Text, later: Line, at: nat)
    ensures TextOf(Literals(s, later)) == s + TextOf(later)
    ensures MarksFrom(Literals(s, later), at) == MarksFrom(later, at + |s|)
  {
    if s != [] {
      LiteralsAreText(s[1..], later, at + 1);
      LiteralShows(s[0], Literals(s[1..], later), at);
      Regroup([s[0]], s[1..], TextOf(later));
      assert s == [s[0]] + s[1..];
    } else {
      assert [] + TextOf(later) == TextOf(later);
    }
  }

  lemma LiteralShows(b: Byte, later: Line, at: nat)
    ensures TextOf(More(Literal(b), later)) == [b] + TextOf(later)
    ensures MarksFrom(More(Literal(b), later), at) == MarksFrom(later, at + 1)
  {
  }
}
