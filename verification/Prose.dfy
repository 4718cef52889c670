// Lines put together.

module Prose {
  // What the rows hold of the lines they come from, without the pass's own joining:
  // where each line stands in its paragraph or code block, and what stands between.

  import opened Sequences
  import opened Blocks
  import opened Lexers
  import opened Nestings
  import opened Lowerings

  const GAP: Byte := 32

  // ----- Where lines stand

  /** The offset of the line of token `k` where those from `i` on stand one byte apart. */
  function LineAt(tokens: seq<Token>, i: nat, k: nat): nat
    requires i <= k <= |tokens|
  {
    if k == i then 0 else LineAt(tokens, i, k - 1) + |tokens[k - 1].text| + 1
  }

  /** Line `k` stands at its offset, right behind a `sep` unless it is the first. */
  ghost predicate StandsAt(text: Text, tokens: seq<Token>, i: nat, k: nat, at: nat, sep: Byte)
    requires i <= k < |tokens|
  {
    && at + |tokens[k].text| <= |text| && text[at..at + |tokens[k].text|] == tokens[k].text
    && (k > i ==> 0 < at && text[at - 1] == sep)
  }

  /** `text` is the lines of the tokens from `i` to `j`, `sep` between them, and nothing else. */
  ghost predicate LaidOut(text: Text, tokens: seq<Token>, i: nat, j: nat, sep: Byte)
    requires i <= j <= |tokens|
  {
    && (forall k :: i <= k < j ==> StandsAt(text, tokens, i, k, LineAt(tokens, i, k), sep))
    && (if i == j then text == [] else |text| + 1 == LineAt(tokens, i, j))
  }

  lemma {:induction false} JoinSnoc(lines: seq<Text>, last: Text, sep: Text)
    requires lines != []
    ensures Join(lines + [last], sep) == Join(lines, sep) + sep + last
    decreases |lines|
  {
    var all := lines + [last];
    if |lines| == 1 {
      assert all[1..] == [last] && all[0] == lines[0];
    } else {
      assert all[1..] == lines[1..] + [last] && all[0] == lines[0];
      JoinSnoc(lines[1..], last, sep);
      Regroup(lines[0] + sep, Join(lines[1..], sep) + sep, last);
      Regroup(lines[0] + sep, Join(lines[1..], sep), sep);
    }
  }

  /** Joined lines stand where they should. */
  lemma {:induction false} JoinIsLaidOut(tokens: seq<Token>, i: nat, j: nat, sep: Byte)
    requires i <= j <= |tokens|
    ensures |TextsOf(tokens, i, j)| == j - i && LaidOut(Join(TextsOf(tokens, i, j), [sep]), tokens, i, j, sep)
    decreases j - i
  {
    if j == i + 1 {
      assert TextsOf(tokens, i, i) == [];
      assert Join(TextsOf(tokens, i, j), [sep]) == tokens[i].text;
      assert LineAt(tokens, i, i) == 0;
    } else if i < j {
      var k := j - 1;
      JoinIsLaidOut(tokens, i, k, sep);
      JoinSnoc(TextsOf(tokens, i, k), tokens[k].text, [sep]);
      OneMoreLine(Join(TextsOf(tokens, i, k), [sep]), tokens, i, k, sep);
    }
  }

  lemma OneMoreLine(text: Text, tokens: seq<Token>, i: nat, k: nat, sep: Byte)
    requires i < k < |tokens| && LaidOut(text, tokens, i, k, sep)
    ensures LaidOut(text + [sep] + tokens[k].text, tokens, i, k + 1, sep)
  {
    var longer, at := text + [sep] + tokens[k].text, LineAt(tokens, i, k);
    assert longer[at..at + |tokens[k].text|] == tokens[k].text;
    forall n | i <= n < k ensures StandsAt(longer, tokens, i, n, LineAt(tokens, i, n), sep) {
      assert StandsAt(text, tokens, i, n, LineAt(tokens, i, n), sep);
      var from := LineAt(tokens, i, n);
      assert longer[from..from + |tokens[n].text|] == text[from..from + |tokens[n].text|];
    }
  }

  // ----- Code cut into lines

  /** The stretches of `t` between its bytes `sep`. */
  function CutAt(t: Text, sep: Byte): (lines: seq<Text>)
    ensures |lines| > 0
  {
    if t == [] then [[]]
    else
      var rest := CutAt(t[1..], sep);
      if t[0] == sep then [[]] + rest else [[t[0]] + rest[0]] + rest[1..]
  }

  lemma {:induction false} CutWhole(a: Text, sep: Byte)
    requires sep !in a
    ensures CutAt(a, sep) == [a]
  {
    if a != [] {
      CutWhole(a[1..], sep);
      assert [a[0]] + a[1..] == a;
    }
  }

  lemma {:induction false} CutFirst(a: Text, sep: Byte, b: Text)
    requires sep !in a
    ensures CutAt(a + [sep] + b, sep) == [a] + CutAt(b, sep)
  {
    var t := a + [sep] + b;
    if a == [] {
      assert t[1..] == b;
    } else {
      assert t[1..] == a[1..] + [sep] + b && t[0] == a[0];
      CutFirst(a[1..], sep, b);
      assert [a[0]] + a[1..] == a;
    }
  }

  lemma {:induction false} CutJoined(lines: seq<Text>, sep: Byte)
    requires lines != [] && forall l :: l in lines ==> sep !in l
    ensures CutAt(Join(lines, [sep]), sep) == lines
  {
    var first, rest := lines[0], lines[1..];
    assert lines == [first] + rest;
    if rest == [] {
      CutWhole(first, sep);
    } else {
      CutJoined(rest, sep);
      CutFirst(first, sep, Join(rest, [sep]));
    }
  }

  // ----- The bodies, token by token

  /** The tokens from `i` to `j` are all of one kind, and the run goes no further. */
  ghost predicate WholeRun(tokens: seq<Token>, i: nat, j: nat, kind: TokenKind) {
    && i <= j <= |tokens| && (forall t :: i <= t < j ==> tokens[t].kind == kind)
    && (j < |tokens| ==> tokens[j].kind != kind)
  }

  lemma {:induction false} RunEndExactly(tokens: seq<Token>, i: nat, kind: TokenKind, j: nat)
    requires i <= |tokens|
    ensures WholeRun(tokens, i, j, kind) <==> j == RunEnd(tokens, i, kind)
    decreases |tokens| - i
  {
    if i < |tokens| && tokens[i].kind == kind {
      RunEndExactly(tokens, i + 1, kind, j);
    }
  }

  function TheLines(tokens: seq<Token>, i: nat, j: nat): seq<Text>
    requires i <= j <= |tokens|
  {
    seq(j - i, k requires 0 <= k < j - i => tokens[i + k].text)
  }

  /** Code that shows the lines from `i` to `j`: cut at its line feeds it gives them back,
      when there are any and none holds one itself. */
  ghost predicate ShowsCode(text: Text, tokens: seq<Token>, i: nat, j: nat)
    requires i <= j <= |tokens|
  {
    && LaidOut(text, tokens, i, j, LF)
    && (i < j && (forall k :: i <= k < j ==> LF !in tokens[k].text) ==> CutAt(text, LF) == TheLines(tokens, i, j))
  }

  /** What `parse` makes of the lines from `i` to `j` with one space between them. */
  ghost predicate ShowsProse(c: Content, tokens: seq<Token>, i: nat, j: nat, parse: Text -> Content)
    requires i <= j <= |tokens|
  {
    exists text :: LaidOut(text, tokens, i, j, GAP) && c == parse(text)
  }

  /** The code of the fence opened at token `i`, whose lines end at `e`. */
  ghost predicate CodeUpTo(tokens: seq<Token>, i: nat, e: nat, b: Body)
    requires i < |tokens|
  {
    && WholeRun(tokens, i + 1, e, CodeText) && ShowsCode(b.content.text, tokens, i + 1, e)
    && b.content.marks == [] && b.kind == Plain(CodeBlock).(language := tokens[i].lang)
  }

  /** `h` is what starts at token `i`, and `j` is where the next one may start: items and
      quoted prose stand under another block, everything else at the top. */
  ghost predicate Tells(tokens: seq<Token>, i: nat, j: nat, parse: Text -> Content, h: Held)
    requires i < |tokens|
  {
    var t, b := tokens[i], h.body;
    && (h.under <==> t.kind == QuoteLine || t.kind == Bullet || t.kind == Ordered || t.kind == TodoItem)
    && match t.kind
       case DividerLine => j == i + 1 && b == Body(Plain(Divider), Content([], []))
       case AtxHeading => j == i + 1 && b == Body(Plain(BlockTag.Heading).(level := t.level), parse(t.text))
       case FenceOpen =>
         exists e: nat :: CodeUpTo(tokens, i, e, b) && j == if e < |tokens| && tokens[e].kind == FenceClose then e + 1 else e
       case QuoteLine =>
         WholeRun(tokens, i, j, QuoteLine) && b.kind == Plain(Paragraph) && ShowsProse(b.content, tokens, i, j, parse)
       case ParagraphLine =>
         WholeRun(tokens, i, j, ParagraphLine) && b.kind == Plain(Paragraph) && ShowsProse(b.content, tokens, i, j, parse)
       case Bullet => j == i + 1 && b == Body(Plain(ListItem).(checked := t.checked), parse(t.text))
       case Ordered => j == i + 1 && b == Body(Plain(ListItem).(checked := t.checked), parse(t.text))
       case TodoItem => j == i + 1 && b == Body(Plain(ListItem).(checked := t.checked), parse(t.text))
       case _ => false
  }

  /** `held` is what the tokens from `i` on tell, one after the other, blank lines left out. */
  ghost predicate TellsAll(tokens: seq<Token>, i: nat, parse: Text -> Content, held: seq<Held>)
    decreases |tokens| - i
  {
    if i >= |tokens| then held == []
    else if tokens[i].kind == Blank then TellsAll(tokens, i + 1, parse, held)
    else held != [] && exists j: nat :: i < j && Tells(tokens, i, j, parse, held[0]) && TellsAll(tokens, j, parse, held[1..])
  }

  lemma {:induction false} LinesAreTexts(tokens: seq<Token>, i: nat, j: nat)
    requires i <= j <= |tokens|
    ensures TheLines(tokens, i, j) == TextsOf(tokens, i, j)
    decreases j - i
  {
    if i < j {
      LinesAreTexts(tokens, i, j - 1);
      OneMoreOfThem(tokens, i, j - 1, j);
    }
  }

  lemma OneMoreOfThem(tokens: seq<Token>, i: nat, k: nat, j: nat)
    requires i <= k && j == k + 1 <= |tokens|
    ensures TheLines(tokens, i, j) == TheLines(tokens, i, k) + [tokens[k].text]
  {
  }

  lemma CodeShown(tokens: seq<Token>, i: nat, j: nat)
    requires i <= j <= |tokens|
    ensures ShowsCode(Join(TextsOf(tokens, i, j), NEWLINE), tokens, i, j)
  {
    JoinIsLaidOut(tokens, i, j, LF);
    LinesAreTexts(tokens, i, j);
    if i < j && forall k :: i <= k < j ==> LF !in tokens[k].text {
      CutJoined(TextsOf(tokens, i, j), LF);
    }
  }

  lemma CodeTells(tokens: seq<Token>, i: nat, parse: Text -> Content)
    requires i < |tokens| && tokens[i].kind == FenceOpen
    ensures Tells(tokens, i, FenceEnd(tokens, i).0, parse, Held(false, CodeOf(tokens, i)))
  {
    var e := RunEnd(tokens, i + 1, CodeText);
    RunEndExactly(tokens, i + 1, CodeText, e);
    CodeShown(tokens, i + 1, e);
    assert CodeUpTo(tokens, i, e, CodeOf(tokens, i));
  }

  lemma ProseTells(tokens: seq<Token>, i: nat, kind: TokenKind, parse: Text -> Content)
    requires i < |tokens| && tokens[i].kind == kind && (kind == QuoteLine || kind == ParagraphLine)
    ensures Tells(tokens, i, RunEnd(tokens, i, kind), parse, Held(kind == QuoteLine, ProseOf(tokens, i, kind, parse)))
  {
    var j := RunEnd(tokens, i, kind);
    RunEndExactly(tokens, i, kind, j);
    JoinIsLaidOut(tokens, i, j, GAP);
    assert SPACE == [GAP];
    assert LaidOut(Join(TextsOf(tokens, i, j), SPACE), tokens, i, j, GAP);
  }

  /** What starts at token `i`. */
  function HeldAt(tokens: seq<Token>, i: nat, parse: Text -> Content): Held
    requires i < |tokens|
  {
    var t := tokens[i];
    if t.kind.IsList() then Held(true, ItemBody(t, parse))
    else if t.kind == QuoteLine then Held(true, ProseOf(tokens, i, QuoteLine, parse))
    else Held(false, LeafOf(tokens, i, parse))
  }

  /** Where the next one may start. */
  function Behind(tokens: seq<Token>, i: nat): nat
    requires i < |tokens|
  {
    if tokens[i].kind.IsList() then i + 1 else NextIndex(tokens, i)
  }

  lemma BodyTells(tokens: seq<Token>, i: nat, parse: Text -> Content)
    requires i < |tokens| && !tokens[i].kind.IsFenced() && tokens[i].kind != Blank
    ensures Tells(tokens, i, Behind(tokens, i), parse, HeldAt(tokens, i, parse))
  {
    var kind := tokens[i].kind;
    if kind == FenceOpen {
      CodeTells(tokens, i, parse);
    } else if kind == QuoteLine || kind == ParagraphLine {
      ProseTells(tokens, i, kind, parse);
    }
  }

  lemma SaidStep(tokens: seq<Token>, i: nat, parse: Text -> Content)
    requires i < |tokens| && !tokens[i].kind.IsFenced() && tokens[i].kind != Blank
    ensures Behind(tokens, i) <= |tokens|
    ensures Said(tokens, i, parse) == [HeldAt(tokens, i, parse)] + Said(tokens, Behind(tokens, i), parse)
  {
  }

  lemma {:induction false} SaidTells(tokens: seq<Token>, i: nat, parse: Text -> Content)
    requires Fenced(tokens) && i <= |tokens| && (i < |tokens| ==> !tokens[i].kind.IsFenced())
    ensures TellsAll(tokens, i, parse, Said(tokens, i, parse))
    decreases |tokens| - i
  {
    if i < |tokens| {
      FencedSteps(tokens, i);
      assert i + 1 < |tokens| ==> !Stray(tokens, i + 1);
      if tokens[i].kind == Blank {
        SaidTells(tokens, i + 1, parse);
      } else {
        var j := Behind(tokens, i);
        BodyTells(tokens, i, parse);
        SaidStep(tokens, i, parse);
        SaidTells(tokens, j, parse);
        assert Said(tokens, i, parse)[1..] == Said(tokens, j, parse);
      }
    }
  }

  /** The rows of a paste hold, in order, exactly what its tokens tell. */
  lemma RowsTell(tokens: seq<Token>, parse: Text -> Content)
    requires Fenced(tokens)
    ensures TellsAll(tokens, 0, parse, Contents(LoweredRows(tokens, 0, [], parse)))
  {
    assert !Stray(tokens, 0);
    NothingIsLost(tokens, 0, [], parse);
    SaidTells(tokens, 0, parse);
    assert Contents([]) + Said(tokens, 0, parse) == Said(tokens, 0, parse);
  }
}
