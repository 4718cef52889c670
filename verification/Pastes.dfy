// Pastes written and lexed.

module Pastes {
  // A source put together line by line is lexed to one token a line, of the kind and
  // with the fields the line was written for.

  import opened Options
  import opened Sequences
  import opened Trims
  import opened Lexers
  import opened Lines

  // A line outside a fence, or a line of a fence: `n` times its mark, and its language.
  datatype Entry =
    | Outside(line: Line)
    | Opens(mark: Byte, n: nat, lang: Bytes)
    | Codes(text: Bytes)
    | Closes(mark: Byte, n: nat)
  {
    function Body(): Bytes {
      match this
      case Outside(line) => Written(line)
      case Opens(mark, n, lang) => Repeated(mark, n) + lang
      case Codes(text) => text
      case Closes(mark, n) => Repeated(mark, n)
    }

    /** What a writer would write: no line feed, and code that is no fence. */
    predicate Good() {
      && LF !in Body()
      && match this
         case Outside(line) => Writable(line)
         case Opens(mark, n, lang) => IsFenceByte(mark) && n >= 3 && (lang == [] || (Solid(lang) && !IsFenceByte(lang[0])))
         case Codes(text) => (text != [] ==> text[|text| - 1] != CR) && FenceInfo(text).None?
         case Closes(mark, n) => IsFenceByte(mark) && n >= 3
    }
  }

  /** Whether line `k` stands inside a fence. */
  predicate Inside(es: seq<Entry>, k: nat)
    requires k <= |es|
  {
    k > 0 && (es[k - 1].Opens? || es[k - 1].Codes?)
  }

  /** Code and closes stand in fences, and nothing else does. */
  predicate Placed(es: seq<Entry>) {
    forall k :: 0 <= k < |es| ==> es[k].Good() && (es[k].Codes? || es[k].Closes? <==> Inside(es, k))
  }

  /** The token of a line, but for its span. */
  ghost predicate Matches(t: Token, e: Entry) {
    match e
    case Opens(_, _, lang) => t.kind == FenceOpen && t.lang == lang
    case Codes(text) => t.kind == CodeText && t.text == text
    case Closes(_, _) => t.kind == FenceClose
    case Outside(line) =>
      match line
      case BlankLine => t.kind == Blank
      case Rule => t.kind == DividerLine
      case Heading(level, text) => t.kind == AtxHeading && t.level == level && t.text == text
      case Quoted(text) => t.kind == QuoteLine && t.text == text
      case Item(ordered, indent, text) =>
        t.kind == (if ordered then Ordered else Bullet) && t.indent == indent && t.text == text
      case Task(indent, checked, text) => t.kind == TodoItem && t.indent == indent && t.checked == checked && t.text == text
      case Prose(text) => t.kind == ParagraphLine && t.text == text
  }

  function SourceLines(es: seq<Entry>): seq<Bytes> {
    seq(|es|, k requires 0 <= k < |es| => es[k].Body() + [LF])
  }

  /** The source: every line with a line feed behind it. */
  function Source(es: seq<Entry>): Bytes {
    Concat(SourceLines(es))
  }

  // ----- One way to split

  lemma LineFeedInside(a: seq<Bytes>, b: seq<Bytes>, x: Bytes, y: Bytes)
    requires a != [] && a[|a| - 1] != [] && a[|a| - 1][|a[|a| - 1]| - 1] == LF
    requires Concat(a) + x == Concat(b) + y && 0 < |x| < |y|
    ensures LF in y[..|y| - 1]
  {
    var src, z, n := Concat(a) + x, a[|a| - 1], |Concat(a)|;
    assert |src| == n + |x| == |Concat(b)| + |y|;
    assert src[n - 1] == Concat(a)[n - 1] == z[|z| - 1];
    var at := |y| - |x| - 1;
    assert src[n - 1] == y[at] == y[..|y| - 1][at];
  }

  lemma LastIsNotLonger(a: seq<Bytes>, b: seq<Bytes>, x: Bytes, y: Bytes)
    requires Split(a + [x]) && Split(b + [y]) && Concat(a) + x == Concat(b) + y
    ensures |y| <= |x|
  {
    assert (b + [y])[|b|] == y;
    assert |Concat(a) + x| == |Concat(b) + y|;
    if a != [] {
      assert (a + [x])[|a| - 1] == a[|a| - 1] && (a + [x])[|a|] == x;
      if |x| < |y| {
        LineFeedInside(a, b, x, y);
      }
    }
  }

  lemma NoBytesNoLines(lines: seq<Bytes>)
    requires Split(lines)
    ensures Concat(lines) == [] <==> lines == []
  {
  }

  lemma {:induction false} SplitOnce(a: seq<Bytes>, b: seq<Bytes>)
    requires Split(a) && Split(b) && Concat(a) == Concat(b)
    ensures a == b
    decreases |a|
  {
    NoBytesNoLines(a);
    NoBytesNoLines(b);
    if a != [] {
      var i, j, x, y := a[..|a| - 1], b[..|b| - 1], a[|a| - 1], b[|b| - 1];
      assert a == i + [x] && b == j + [y];
      LastIsNotLonger(i, j, x, y);
      LastIsNotLonger(j, i, y, x);
      SameParts(Concat(i), x, Concat(j), y);
      SplitOnce(i, j);
    }
  }

  lemma SameParts(a: Bytes, x: Bytes, b: Bytes, y: Bytes)
    requires a + x == b + y && |x| == |y|
    ensures a == b && x == y
  {
    assert |a + x| == |b + y|;
    assert a == (a + x)[..|a|] && x == (a + x)[|a|..];
  }

  // ----- Each line

  lemma MarksAreSolid(mark: Byte, m: nat, n: nat)
    requires IsFenceByte(mark) && m >= 2 && n == m + 1
    ensures Solid(Repeated(mark, n))
  {
    RepeatedSnoc(mark, m);
    RepeatedLength(mark, m);
    MarkedIsSolid(Repeated(mark, m), [mark]);
  }

  lemma FenceIsSolid(mark: Byte, n: nat, lang: Bytes)
    requires IsFenceByte(mark) && n >= 3 && (lang == [] || Solid(lang))
    ensures Solid(Repeated(mark, n) + lang)
  {
    if lang == [] {
      MarksAreSolid(mark, n - 1, n);
      assert Repeated(mark, n) + [] == Repeated(mark, n);
    } else {
      RepeatedLength(mark, n);
      MarkedIsSolid(Repeated(mark, n), lang);
    }
  }

  lemma FenceOpensLine(mark: Byte, n: nat, lang: Bytes)
    requires IsFenceByte(mark) && n >= 3
    ensures IsFence(Repeated(mark, n) + lang)
  {
    RepeatedLength(mark, n);
  }

  lemma TrimOfLang(lang: Bytes)
    requires lang == [] || Solid(lang)
    ensures Trim(lang) == lang
  {
    if lang != [] {
      SolidStays(lang);
    }
  }

  lemma FenceLine(mark: Byte, n: nat, lang: Bytes)
    requires IsFenceByte(mark) && n >= 3 && (lang == [] || (Solid(lang) && !IsFenceByte(lang[0])))
    ensures FenceInfo(Repeated(mark, n) + lang) == Some(lang)
  {
    var s := Repeated(mark, n) + lang;
    FenceIsSolid(mark, n, lang);
    SolidStays(s);
    FenceOpensLine(mark, n, lang);
    LeadingRun(mark, n, lang, IsFenceByte);
    RepeatedLength(mark, n);
    Behind(Repeated(mark, n), lang);
    TrimOfLang(lang);
  }

  lemma {:induction false} RepeatedSnoc(b: Byte, n: nat)
    ensures Repeated(b, n + 1) == Repeated(b, n) + [b]
  {
    if n > 0 {
      RepeatedSnoc(b, n - 1);
    }
  }

  /** The line end is taken off again. */
  lemma LineEndGoes(body: Bytes)
    requires body != [] ==> body[|body| - 1] != CR && body[|body| - 1] != LF
    ensures TrimLineEnd(body + [LF]) == body
  {
    assert (body + [LF])[..|body|] == body;
  }

  lemma EndsSolid(s: Bytes)
    requires s != [] && SpaceBehind(s) == 0
    ensures s[|s| - 1] != CR && s[|s| - 1] != LF
  {
  }

  lemma WrittenEnds(l: Line)
    requires Writable(l) && Written(l) != []
    ensures var s := Written(l); s[|s| - 1] != CR && s[|s| - 1] != LF
  {
    match l
    case BlankLine =>
    case Rule =>
    case Heading(level, text) =>
      EndsSolid(text);
      LastOf(Repeated(HASH, level) + [SPACE], text);
    case Quoted(text) =>
      if text != [] {
        EndsSolid(text);
        LastOf([GREATER, SPACE], text);
      }
    case Item(ordered, indent, text) =>
      EndsSolid(text);
      LastOf(Repeated(SPACE, INDENT_WIDTH * indent) + ItemMarker(ordered), text);
    case Task(indent, checked, text) =>
      EndsSolid(text);
      LastOf(Repeated(SPACE, INDENT_WIDTH * indent) + TaskMarker(checked), text);
    case Prose(text) => EndsSolid(text);
  }

  lemma LastOf(a: Bytes, b: Bytes)
    requires b != []
    ensures (a + b)[|a + b| - 1] == b[|b| - 1]
  {
  }

  lemma BodyStays(e: Entry)
    requires e.Good()
    ensures TrimLineEnd(e.Body() + [LF]) == e.Body()
  {
    var s := e.Body();
    match e {
      case Outside(line) =>
        if s != [] { WrittenEnds(line); }
      case Opens(mark, n, lang) =>
        RepeatedLength(mark, n);
        if lang == [] {
          assert s[|s| - 1] == mark;
        } else {
          EndsSolid(lang);
          LastOf(Repeated(mark, n), lang);
        }
      case Codes(text) =>
        assert s != [] ==> s[|s| - 1] in s;
      case Closes(mark, n) =>
        RepeatedLength(mark, n);
        assert s[|s| - 1] == mark;
    }
    LineEndGoes(s);
  }

  /** One written line gives its token, and turns the fence state where it is a fence. */
  lemma EntryLexed(e: Entry, start: nat, inFence: bool)
    requires e.Good() && (inFence <==> e.Codes? || e.Closes?)
    ensures Matches(TokenOf(Markdown(), e.Body() + [LF], start, inFence), e)
    ensures Markdown().fence(TrimLineEnd(e.Body() + [LF])).Some? <==> e.Opens? || e.Closes?
  {
    BodyStays(e);
    match e
    case Outside(line) => WrittenLineReadsBack(line);
    case Opens(mark, n, lang) => FenceLine(mark, n, lang);
    case Codes(text) =>
    case Closes(mark, n) =>
      FenceLine(mark, n, []);
      assert Repeated(mark, n) + [] == Repeated(mark, n);
  }

  lemma EntryIsLexed(e: Entry, inFence: bool)
    requires e.Good() && (inFence <==> e.Codes? || e.Closes?)
    ensures LexedAs(Markdown(), e.Body() + [LF], inFence, e)
  {
    EntryLexed(e, 0, inFence);
    forall start ensures Matches(TokenOf(Markdown(), e.Body() + [LF], start, inFence), e) {
      EntryLexed(e, start, inFence);
    }
  }

  // ----- The whole source

  /** The line is lexed as it was written for, and turns the fence state where it is a fence. */
  ghost predicate LexedAs(g: Grammar, line: Bytes, inFence: bool, e: Entry) {
    && (forall start :: Matches(TokenOf(g, line, start, inFence), e))
    && (g.fence(TrimLineEnd(line)).Some? <==> e.Opens? || e.Closes?)
  }

  /** Each line is lexed as its entry where it stands. */
  ghost predicate AllLexed(g: Grammar, lines: seq<Bytes>, es: seq<Entry>) {
    |lines| == |es| && forall j :: 0 <= j < |es| ==>
      LexedAs(g, lines[j], Inside(es, j), es[j]) && (es[j].Codes? || es[j].Closes? <==> Inside(es, j))
  }

  ghost predicate MatchUpTo(tokens: seq<Token>, es: seq<Entry>, k: nat) {
    |tokens| == k <= |es| && forall j :: 0 <= j < k ==> Matches(tokens[j], es[j])
  }

  lemma MatchOneMore(tokens: seq<Token>, more: seq<Token>, es: seq<Entry>, n: nat, k: nat)
    requires MatchUpTo(tokens, es, n) && k == n + 1 == |more| <= |es| && more[..n] == tokens && Matches(more[n], es[n])
    ensures MatchUpTo(more, es, k)
  {
  }

  lemma {:induction false} LexedSoFar(g: Grammar, lines: seq<Bytes>, es: seq<Entry>, k: nat)
    requires k <= |lines| && AllLexed(g, lines, es)
    ensures InFence(g, lines, k) <==> Inside(es, k)
    ensures MatchUpTo(Tokens(g, lines, k), es, k)
    decreases k
  {
    if k > 0 {
      var n := k - 1;
      LexedSoFar(g, lines, es, n);
      OneMoreLexed(g, lines, n, k, Inside(es, n), es[n]);
      MatchOneMore(Tokens(g, lines, n), Tokens(g, lines, k), es, n, k);
    }
  }

  lemma OneMoreLexed(g: Grammar, lines: seq<Bytes>, n: nat, k: nat, inFence: bool, e: Entry)
    requires k == n + 1 <= |lines| && LexedAs(g, lines[n], inFence, e)
    requires (InFence(g, lines, n) <==> inFence) && (e.Codes? || e.Closes? <==> inFence)
    ensures InFence(g, lines, k) <==> e.Opens? || e.Codes?
    ensures Matches(Tokens(g, lines, k)[n], e) && Tokens(g, lines, k)[..n] == Tokens(g, lines, n)
  {
  }

  lemma SourceIsSplit(es: seq<Entry>)
    requires Placed(es)
    ensures Split(SourceLines(es))
  {
    forall k | 0 <= k < |es| ensures LF !in SourceLines(es)[k][..|SourceLines(es)[k]| - 1] {
      assert es[k].Good();
      assert (es[k].Body() + [LF])[..|es[k].Body()|] == es[k].Body();
    }
  }

  /** Lexing a written source gives one token a line, each of the kind and with the
      fields the line was written for. */
  lemma WrittenPasteLexes(es: seq<Entry>, tokens: seq<Token>, lines: seq<Bytes>)
    requires Placed(es) && Split(lines) && Concat(lines) == Source(es) && tokens == Tokens(Markdown(), lines, |lines|)
    ensures |tokens| == |es| && forall k :: 0 <= k < |es| ==> Matches(tokens[k], es[k])
  {
    SourceIsSplit(es);
    SplitOnce(lines, SourceLines(es));
    forall j | 0 <= j < |es| ensures LexedAs(Markdown(), lines[j], Inside(es, j), es[j]) {
      EntryIsLexed(es[j], Inside(es, j));
    }
    LexedSoFar(Markdown(), lines, es, |es|);
  }
}
