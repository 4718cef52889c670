// Source bytes to tokens.

module Lexers {
  // The paste compiler's first pass. What a line outside a fence looks like, and
  // what counts as a fence, are parameters; the pass itself is the split into
  // lines and the fence state.

  import opened Options
  import opened Blocks

  type Text = seq<Byte>

  const LF: Byte := 10
  const CR: Byte := 13

  datatype TokenKind =
    | AtxHeading | ParagraphLine | QuoteLine | Bullet | Ordered | TodoItem
    | FenceOpen | CodeText | FenceClose | DividerLine | Blank
  {
    predicate IsList() { Bullet? || Ordered? || TodoItem? }

    /** Only ever inside a fence or closing one. */
    predicate IsFenced() { CodeText? || FenceClose? }
  }

  datatype Token = Token(kind: TokenKind, start: nat, end: nat, text: Text, level: nat, indent: nat, lang: Text, checked: bool)

  // A line outside a fence, classified.
  datatype Line =
    | BlankLine
    | Rule
    | Heading(level: nat, text: Text)
    | Quoted(text: Text)
    | Item(ordered: bool, indent: nat, text: Text)
    | Task(indent: nat, checked: bool, text: Text)
    | Prose(text: Text)

  // `fence` gives the info string of a fence line; `classify` reads any other line.
  datatype Grammar = Grammar(fence: Text -> Option<Text>, classify: Text -> Line)

  function TrimLineEnd(line: Text): Text {
    if line != [] && (line[|line| - 1] == CR || line[|line| - 1] == LF) then TrimLineEnd(line[..|line| - 1]) else line
  }

  function Concat(lines: seq<Text>): Text {
    if lines == [] then [] else Concat(lines[..|lines| - 1]) + lines[|lines| - 1]
  }

  /** Each line but the last ends at its only line feed. */
  ghost predicate Split(lines: seq<Text>) {
    && (forall k :: 0 <= k < |lines| ==> lines[k] != [] && LF !in lines[k][..|lines[k]| - 1])
    && (forall k :: 0 <= k < |lines| - 1 ==> lines[k] != [] && lines[k][|lines[k]| - 1] == LF)
  }

  /** Splitting keeps every byte: the lines concatenate to the source, and each
      but the last ends at its only line feed. */
  method SplitLinesKeepingEnds(src: Text) returns (lines: seq<Text>)
    ensures Concat(lines) == src && Split(lines)
  {
    lines := [];
    var start, i := 0, 0;
    while i < |src|
      invariant 0 <= start <= i <= |src|
      invariant Concat(lines) == src[..start]
      invariant LF !in src[start..i]
      invariant forall k :: 0 <= k < |lines| ==>
        lines[k] != [] && LF !in lines[k][..|lines[k]| - 1] && lines[k][|lines[k]| - 1] == LF
    {
      if src[i] == LF {
        var line := src[start..i + 1];
        assert line[..|line| - 1] == src[start..i];
        assert (lines + [line])[..|lines|] == lines;
        assert src[..start] + line == src[..i + 1];
        lines := lines + [line];
        start := i + 1;
      }
      i := i + 1;
    }
    assert src[start..i] == src[start..];
    if start < |src| {
      var line := src[start..];
      assert (lines + [line])[..|lines|] == lines;
      assert src[..start] + line == src;
      lines := lines + [line];
    } else {
      assert src[..start] == src;
    }
  }

  // ----- What the pass computes

  /** Whether line `k` starts inside a fence: an odd number of fence lines before it. */
  ghost function InFence(g: Grammar, lines: seq<Text>, k: nat): bool
    requires k <= |lines|
  {
    k > 0 && (InFence(g, lines, k - 1) != g.fence(TrimLineEnd(lines[k - 1])).Some?)
  }

  function Offset(lines: seq<Text>, k: nat): nat
    requires k <= |lines|
  {
    if k == 0 then 0 else Offset(lines, k - 1) + |lines[k - 1]|
  }

  /** The token of one line, given the fence state at its start. */
  function TokenOf(g: Grammar, line: Text, start: nat, inFence: bool): Token {
    var end, body := start + |line|, TrimLineEnd(line);
    var fence := g.fence(body);
    if inFence then
      if fence.Some? then Token(FenceClose, start, end, [], 0, 0, [], false)
      else Token(CodeText, start, end, body, 0, 0, [], false)
    else if fence.Some? then Token(FenceOpen, start, end, [], 0, 0, fence.value, false)
    else match g.classify(body)
      case BlankLine => Token(Blank, start, end, [], 0, 0, [], false)
      case Rule => Token(DividerLine, start, end, [], 0, 0, [], false)
      case Heading(level, text) => Token(AtxHeading, start, end, text, level, 0, [], false)
      case Quoted(text) => Token(QuoteLine, start, end, text, 0, 0, [], false)
      case Item(ordered, indent, text) =>
        Token(if ordered then Ordered else Bullet, start, end, text, 0, indent, [], false)
      case Task(indent, checked, text) => Token(TodoItem, start, end, text, 0, indent, [], checked)
      case Prose(text) => Token(ParagraphLine, start, end, text, 0, 0, [], false)
  }

  /** The spans run on from each other and cover [0, n). */
  ghost predicate Tiles(tokens: seq<Token>, n: nat) {
    && (forall k :: 0 <= k < |tokens| ==> tokens[k].start <= tokens[k].end)
    && (forall k :: 0 < k < |tokens| ==> tokens[k - 1].end == tokens[k].start)
    && (if tokens == [] then n == 0 else tokens[0].start == 0 && tokens[|tokens| - 1].end == n)
  }

  /** Token `k` is code text or a fence close with no fence open or code text right before it. */
  predicate Stray(tokens: seq<Token>, k: nat) {
    && k < |tokens| && tokens[k].kind.IsFenced()
    && (k == 0 || (tokens[k - 1].kind != FenceOpen && tokens[k - 1].kind != CodeText))
  }

  ghost predicate Fenced(tokens: seq<Token>) {
    forall k :: 0 <= k < |tokens| ==> !Stray(tokens, k)
  }

  lemma {:induction false} OffsetIsLength(lines: seq<Text>, k: nat)
    requires k <= |lines|
    ensures Offset(lines, k) == |Concat(lines[..k])|
  {
    if k > 0 {
      OffsetIsLength(lines, k - 1);
      assert lines[..k][..k - 1] == lines[..k - 1];
    }
  }

  /** The tokens of the first `k` lines. */
  ghost function Tokens(g: Grammar, lines: seq<Text>, k: nat): (tokens: seq<Token>)
    requires k <= |lines|
    ensures |tokens| == k
  {
    if k == 0 then []
    else Tokens(g, lines, k - 1) + [TokenOf(g, lines[k - 1], Offset(lines, k - 1), InFence(g, lines, k - 1))]
  }

  lemma TokenSpan(g: Grammar, line: Text, start: nat, inFence: bool)
    ensures var t := TokenOf(g, line, start, inFence); t.start == start && t.end == start + |line|
  {
  }

  lemma TokenFenced(g: Grammar, line: Text, start: nat, inFence: bool)
    ensures var kind := TokenOf(g, line, start, inFence).kind;
      && (kind.IsFenced() <==> inFence)
      && (inFence != g.fence(TrimLineEnd(line)).Some? <==> kind == FenceOpen || kind == CodeText)
  {
  }

  lemma {:induction false} TokensTile(g: Grammar, lines: seq<Text>, k: nat)
    requires k <= |lines|
    ensures Tiles(Tokens(g, lines, k), Offset(lines, k))
  {
    if k > 0 {
      TokensTile(g, lines, k - 1);
      TokenSpan(g, lines[k - 1], Offset(lines, k - 1), InFence(g, lines, k - 1));
    }
  }

  lemma {:induction false} TokensFenced(g: Grammar, lines: seq<Text>, k: nat)
    requires k <= |lines|
    ensures Fenced(Tokens(g, lines, k))
    ensures k > 0 ==> var kind := Tokens(g, lines, k)[k - 1].kind;
              InFence(g, lines, k) <==> kind == FenceOpen || kind == CodeText
  {
    if k > 0 {
      var before := Tokens(g, lines, k - 1);
      TokensFenced(g, lines, k - 1);
      TokenFenced(g, lines[k - 1], Offset(lines, k - 1), InFence(g, lines, k - 1));
      forall j | 0 <= j < k ensures !Stray(Tokens(g, lines, k), j) {
        if j < k - 1 {
          assert !Stray(before, j);
        }
      }
    }
  }

  /** Every line becomes one token decided by the line and the fence state alone;
      the spans tile the source; fenced kinds occur only in fences. */
  method Lex(g: Grammar, src: Text) returns (tokens: seq<Token>, ghost lines: seq<Text>)
    ensures Concat(lines) == src && Split(lines) && tokens == Tokens(g, lines, |lines|)
    ensures Tiles(tokens, |src|)
    ensures Fenced(tokens)
  {
    var split := SplitLinesKeepingEnds(src);
    tokens := [];
    var offset, inFence, k := 0, false, 0;
    while k < |split|
      invariant 0 <= k <= |split|
      invariant offset == Offset(split, k) && inFence == InFence(g, split, k)
      invariant tokens == Tokens(g, split, k)
    {
      var line := split[k];
      tokens := tokens + [TokenOf(g, line, offset, inFence)];
      offset := offset + |line|;
      if g.fence(TrimLineEnd(line)).Some? {
        inFence := !inFence;
      }
      k := k + 1;
    }
    lines := split;
    OffsetIsLength(lines, |lines|);
    assert lines[..|lines|] == lines;
    TokensTile(g, lines, |lines|);
    TokensFenced(g, lines, |lines|);
  }
}
