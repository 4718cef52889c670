// The paste compiler's second pass: tokens to a block tree, as rows numbered in
// creation order, keeping the grammar of lists and quotes.

module Lowerings {
  import opened Sequences
  import opened Options
  import opened Blocks
  import opened Operations
  import opened Outlines
  import opened Lexers
  import opened Nestings

  // ----- The shape of lowered rows

  /** From `from` on, every row hangs from `q` or from a later row. */
  ghost predicate Hangs(rows: seq<Block>, q: nat, from: nat) {
    forall k :: from <= k < |rows| ==> rows[k].parent.Some? && rows[k].parent.value >= q
  }

  /** Row k has id k, and every row between a parent and its child hangs below that parent. */
  ghost predicate NumberedRows(rows: seq<Block>) {
    forall k :: 0 <= k < |rows| ==>
      && rows[k].id == k
      && (rows[k].parent.Some? ==> rows[k].parent.value < k && Hangs(rows[..k], rows[k].parent.value, rows[k].parent.value + 1))
  }

  function TagAt(rows: seq<Block>, k: nat): BlockTag
    requires k < |rows|
  {
    rows[k].body.kind.tag
  }

  predicate PairAllowed(parent: BlockTag, child: BlockTag) {
    (parent == List && child == ListItem) || (parent == ListItem && child == List) || (parent == Quote && child == Paragraph)
  }

  /** Lists hold only list items, list items only lists, and each quote exactly
      one paragraph; nothing else holds anything, and items only sit in lists. */
  ghost predicate ListGrammar(rows: seq<Block>) {
    PairsAllowed(rows) && QuotesHold(rows)
  }

  ghost predicate PairsAllowed(rows: seq<Block>) {
    && (forall k :: 0 <= k < |rows| && rows[k].parent.Some? && rows[k].parent.value < |rows| ==>
          PairAllowed(TagAt(rows, rows[k].parent.value), TagAt(rows, k)))
    && (forall k :: 0 <= k < |rows| && rows[k].parent == None ==> TagAt(rows, k) != ListItem)
  }

  ghost predicate QuotesHold(rows: seq<Block>) {
    && (forall k :: 0 <= k < |rows| && TagAt(rows, k) == Quote ==> k + 1 < |rows| && rows[k + 1].parent == Some(k))
    && (forall k :: 0 <= k < |rows| && rows[k].parent.Some? && rows[k].parent.value < |rows| ==>
          TagAt(rows, rows[k].parent.value) == Quote ==> k == rows[k].parent.value + 1)
  }

  ghost predicate Lowered(rows: seq<Block>) {
    NumberedRows(rows) && ListGrammar(rows)
  }

  /** Numbered rows are depth-first rows. */
  lemma {:induction false} NumberedIsDepthFirst(rows: seq<Block>, n: nat)
    requires NumberedRows(rows) && n <= |rows|
    ensures DepthFirst(rows[..n])
  {
    if n > 0 {
      var m := n - 1;
      NumberedIsDepthFirst(rows, m);
      assert rows[..n][..m] == rows[..m];
      if rows[m].parent.Some? {
        var q := rows[m].parent.value;
        if m - 1 > q {
          HangingDescends(rows, q, m, m - 1);
        }
        assert rows[..m][m - 1] == rows[m - 1];
      }
    }
  }

  lemma {:induction false} HangingDescends(rows: seq<Block>, q: nat, n: nat, x: nat)
    requires NumberedRows(rows) && n <= |rows| && q < x < n && Hangs(rows[..n], q, q + 1)
    ensures Descends(rows[..n], x, q)
    decreases n
  {
    assert rows[..n][..n - 1] == rows[..n - 1];
    assert rows[..n][x] == rows[x];
    var p := rows[x].parent.value;
    if x == n - 1 {
      if p != q {
        HangingDescends(rows, q, n - 1, p);
      }
    } else {
      HangingDescends(rows, q, n - 1, x);
    }
  }

  /** The last child of a block on the open end is itself on the open end. */
  lemma LastChildHangs(rows: seq<Block>, q: nat)
    requires Lowered(rows) && q < |rows| && Hangs(rows, q, q + 1) && LastChild(rows, Some(q)).Some?
    ensures var o := LastChild(rows, Some(q)).value;
      q < o < |rows| && rows[o].parent == Some(q) && Hangs(rows, o, o + 1)
  {
    LastChildIsLast(rows, Some(q));
    var o := LastChild(rows, Some(q)).value;
    var j :| IsLastChildAt(rows, Some(q), o, j);
    forall k | o < k < |rows| ensures rows[k].parent.value >= o {
      var p := rows[k].parent.value;
      assert p != q && rows[..k][o] == rows[o];
    }
  }

  // ----- One step of the pass

  function Join(lines: seq<Text>, sep: Text): Text {
    if lines == [] then []
    else if |lines| == 1 then lines[0]
    else lines[0] + sep + Join(lines[1..], sep)
  }

  function TextsOf(tokens: seq<Token>, i: nat, j: nat): seq<Text>
    requires i <= j <= |tokens|
  {
    if i == j then [] else TextsOf(tokens, i, j - 1) + [tokens[j - 1].text]
  }

  /** End of the run of tokens of one kind starting at `i`. */
  function RunEnd(tokens: seq<Token>, i: nat, kind: TokenKind): (j: nat)
    requires i <= |tokens|
    ensures i <= j <= |tokens|
    decreases |tokens| - i
  {
    if i < |tokens| && tokens[i].kind == kind then RunEnd(tokens, i + 1, kind) else i
  }

  function PlainContent(text: Text): Content { Content(text, []) }

  const SPACE: Text := [32]
  const NEWLINE: Text := [10]

  /** Where the fence opened at `i` ends, and whether it was closed. */
  function FenceEnd(tokens: seq<Token>, i: nat): (r: (nat, bool))
    requires i < |tokens|
    ensures i < r.0 <= |tokens|
  {
    var j := RunEnd(tokens, i + 1, CodeText);
    if j < |tokens| && tokens[j].kind == FenceClose then (j + 1, true) else (j, false)
  }

  /** Where the pass goes on after token `i`. */
  function NextIndex(tokens: seq<Token>, i: nat): (next: nat)
    requires i < |tokens|
    ensures i <= next <= |tokens|
  {
    match tokens[i].kind
    case Blank => i + 1
    case DividerLine => i + 1
    case AtxHeading => i + 1
    case FenceOpen => FenceEnd(tokens, i).0
    case QuoteLine => RunEnd(tokens, i, QuoteLine)
    case Bullet => ListEnd(tokens, i, i + 1)
    case Ordered => ListEnd(tokens, i, i + 1)
    case TodoItem => ListEnd(tokens, i, i + 1)
    case ParagraphLine => RunEnd(tokens, i, ParagraphLine)
    case CodeText => RunEnd(tokens, i, ParagraphLine)
    case FenceClose => RunEnd(tokens, i, ParagraphLine)
  }

  /** The code a fence opened at `i` holds. */
  function CodeOf(tokens: seq<Token>, i: nat): Body
    requires i < |tokens|
  {
    var j := RunEnd(tokens, i + 1, CodeText);
    Body(Plain(CodeBlock).(language := tokens[i].lang), PlainContent(Join(TextsOf(tokens, i + 1, j), NEWLINE)))
  }

  /** The paragraph a run of `kind` lines from `i` makes. */
  function ProseOf(tokens: seq<Token>, i: nat, kind: TokenKind, parse: Text -> Content): Body
    requires i < |tokens|
  {
    Body(Plain(Paragraph), parse(Join(TextsOf(tokens, i, RunEnd(tokens, i, kind)), SPACE)))
  }

  function Leaf(base: seq<Block>, body: Body): seq<Block> {
    base + [Block(|base|, None, body)]
  }

  /** The rows after the step at token `i`. */
  function StepRows(tokens: seq<Token>, i: nat, base: seq<Block>, parse: Text -> Content): seq<Block>
    requires i < |tokens|
  {
    var tok := tokens[i];
    match tok.kind
    case Blank => base
    case DividerLine => Leaf(base, Body(Plain(Divider), PlainContent([])))
    case AtxHeading => Leaf(base, Body(Plain(BlockTag.Heading).(level := tok.level), parse(tok.text)))
    case FenceOpen => Leaf(base, CodeOf(tokens, i))
    case QuoteLine =>
      var n := |base|;
      base + [Block(n, None, Body(Plain(Quote), PlainContent([])))] + [Block(n + 1, Some(n), ProseOf(tokens, i, QuoteLine, parse))]
    case Bullet => Rows(Run(tokens, i, base, parse), ListEnd(tokens, i, i + 1))
    case Ordered => Rows(Run(tokens, i, base, parse), ListEnd(tokens, i, i + 1))
    case TodoItem => Rows(Run(tokens, i, base, parse), ListEnd(tokens, i, i + 1))
    case ParagraphLine => Leaf(base, ProseOf(tokens, i, ParagraphLine, parse))
    case CodeText => Leaf(base, ProseOf(tokens, i, ParagraphLine, parse))
    case FenceClose => Leaf(base, ProseOf(tokens, i, ParagraphLine, parse))
  }

  /** The rows of the whole pass from token `i` on, as far as it moves. */
  function LoweredRows(tokens: seq<Token>, i: nat, base: seq<Block>, parse: Text -> Content): seq<Block>
    requires i <= |tokens|
    decreases |tokens| - i
  {
    if i == |tokens| || NextIndex(tokens, i) == i then base
    else LoweredRows(tokens, NextIndex(tokens, i), StepRows(tokens, i, base, parse), parse)
  }

  // ----- The pass ends exactly on fenced tokens

  /** From token `i` the pass is through in at most `n` steps. */
  predicate EndsIn(tokens: seq<Token>, i: nat, n: nat)
    requires i <= |tokens|
    decreases n
  {
    i == |tokens| || (n > 0 && EndsIn(tokens, NextIndex(tokens, i), n - 1))
  }

  ghost predicate Ends(tokens: seq<Token>) {
    exists n: nat :: EndsIn(tokens, 0, n)
  }

  lemma {:induction false} StuckAtFenced(tokens: seq<Token>, i: nat, n: nat)
    requires i < |tokens| && tokens[i].kind.IsFenced()
    ensures NextIndex(tokens, i) == i && !EndsIn(tokens, i, n)
    decreases n
  {
    if n > 0 {
      StuckAtFenced(tokens, i, n - 1);
    }
  }

  lemma {:induction false} RunEndBefore(tokens: seq<Token>, i: nat, kind: TokenKind, k: nat)
    requires i <= k < |tokens| && tokens[k].kind != kind
    ensures RunEnd(tokens, i, kind) <= k
    decreases k - i
  {
    if i < k {
      RunEndBefore(tokens, i + 1, kind, k);
    }
  }

  lemma {:induction false} ListEndBefore(tokens: seq<Token>, q: nat, i: nat, k: nat)
    requires q < |tokens| && i <= k < |tokens| && !tokens[k].kind.IsList()
    ensures ListEnd(tokens, q, i) <= k
    decreases k - i
  {
    if i < k {
      ListEndBefore(tokens, q, i + 1, k);
    }
  }

  lemma FenceEndBefore(tokens: seq<Token>, i: nat, k: nat)
    requires Stray(tokens, k) && i < k && tokens[i].kind == FenceOpen
    ensures FenceEnd(tokens, i).0 <= k
  {
    var j := RunEnd(tokens, i + 1, CodeText);
    if i + 1 < k {
      RunEndBefore(tokens, i + 1, CodeText, k - 1);
    }
  }

  /** No step jumps over a stray token. */
  lemma StepsStopAtStray(tokens: seq<Token>, i: nat, k: nat)
    requires i < k && Stray(tokens, k)
    ensures NextIndex(tokens, i) <= k
  {
    var kind := tokens[i].kind;
    if kind == FenceOpen {
      FenceEndBefore(tokens, i, k);
    } else if kind == QuoteLine {
      RunEndBefore(tokens, i, QuoteLine, k);
    } else if kind.IsList() {
      ListEndBefore(tokens, i, i + 1, k);
    } else {
      RunEndBefore(tokens, i, ParagraphLine, k);
    }
  }

  lemma {:induction false} StrayNeverEnds(tokens: seq<Token>, i: nat, k: nat, n: nat)
    requires i <= k && Stray(tokens, k)
    ensures !EndsIn(tokens, i, n)
    decreases n
  {
    if tokens[i].kind.IsFenced() {
      StuckAtFenced(tokens, i, n);
    } else if n > 0 {
      StepsStopAtStray(tokens, i, k);
      StrayNeverEnds(tokens, NextIndex(tokens, i), k, n - 1);
    }
  }

  /** Collects the run of `kind` tokens from `i`. */
  method TakeRun(tokens: seq<Token>, i: nat, kind: TokenKind) returns (texts: seq<Text>, j: nat)
    requires i <= |tokens|
    ensures j == RunEnd(tokens, i, kind) && texts == TextsOf(tokens, i, j)
  {
    texts, j := [], i;
    while j < |tokens| && tokens[j].kind == kind
      invariant i <= j <= |tokens| && texts == TextsOf(tokens, i, j)
      invariant RunEnd(tokens, j, kind) == RunEnd(tokens, i, kind)
    {
      texts := texts + [tokens[j].text];
      j := j + 1;
    }
  }

  /** Whether some fence among the first `n` tokens runs out without its close. */
  ghost predicate Unclosed(tokens: seq<Token>, n: nat)
    requires n <= |tokens|
  {
    exists k :: 0 <= k < n && OpenEnd(tokens, k)
  }

  /** Code that ends here with no close after it. */
  ghost predicate OpenEnd(tokens: seq<Token>, k: nat)
    requires k < |tokens|
  {
    && (tokens[k].kind == FenceOpen || tokens[k].kind == CodeText)
    && !(k + 1 < |tokens| && tokens[k + 1].kind.IsFenced())
  }

  lemma {:induction false} RunKinds(tokens: seq<Token>, i: nat, kind: TokenKind, k: nat)
    requires i <= k <= |tokens| && k < RunEnd(tokens, i, kind)
    ensures tokens[k].kind == kind
    ensures RunEnd(tokens, k, kind) == RunEnd(tokens, i, kind)
    decreases k - i
  {
    if i < k {
      RunKinds(tokens, i + 1, kind, k);
    }
  }

  lemma {:induction false} RunStops(tokens: seq<Token>, i: nat, kind: TokenKind)
    requires i <= |tokens|
    ensures var j := RunEnd(tokens, i, kind); j < |tokens| ==> tokens[j].kind != kind
    decreases |tokens| - i
  {
    if i < |tokens| && tokens[i].kind == kind {
      RunStops(tokens, i + 1, kind);
    }
  }

  /** On fenced tokens each step moves on, and never into a fence. */
  lemma FencedSteps(tokens: seq<Token>, i: nat)
    requires Fenced(tokens) && i < |tokens| && !tokens[i].kind.IsFenced()
    ensures var next := NextIndex(tokens, i); i < next && (next < |tokens| ==> !tokens[next].kind.IsFenced())
  {
    var kind := tokens[i].kind;
    if kind == FenceOpen {
      FenceRun(tokens, i);
    } else if kind == QuoteLine || kind == ParagraphLine {
      RunIsOneKind(tokens, i, kind);
      QuietRun(tokens, i, NextIndex(tokens, i));
    } else if kind.IsList() {
      ListIsQuiet(tokens, i);
      QuietRun(tokens, i, NextIndex(tokens, i));
    } else {
      QuietRun(tokens, i, i + 1);
    }
  }

  lemma ListIsQuiet(tokens: seq<Token>, i: nat)
    requires i < |tokens| && tokens[i].kind.IsList()
    ensures Quiet(tokens, i, ListEnd(tokens, i, i + 1))
  {
    forall k | i < k < ListEnd(tokens, i, i + 1) ensures tokens[k].kind.IsList() {
      ListEndContinues(tokens, i, i + 1, k);
    }
  }

  lemma {:induction false} EndsLater(tokens: seq<Token>, i: nat, n: nat, m: nat)
    requires i <= |tokens| && EndsIn(tokens, i, n) && n <= m
    ensures EndsIn(tokens, i, m)
    decreases n
  {
    if i < |tokens| {
      EndsLater(tokens, NextIndex(tokens, i), n - 1, m - 1);
    }
  }

  lemma {:induction false} FencedEnds(tokens: seq<Token>, i: nat)
    requires Fenced(tokens) && i <= |tokens| && (i < |tokens| ==> !tokens[i].kind.IsFenced())
    ensures EndsIn(tokens, i, |tokens| - i)
    decreases |tokens| - i
  {
    if i < |tokens| {
      FencedSteps(tokens, i);
      var next := NextIndex(tokens, i);
      FencedEnds(tokens, next);
      EndsLater(tokens, next, |tokens| - next, |tokens| - i - 1);
    }
  }

  /** The pass gets through exactly the token lists whose code text and fence closes
      all follow a fence open: on any other it stays at one token for good. */
  lemma EndsExactlyWhenFenced(tokens: seq<Token>)
    ensures Ends(tokens) <==> Fenced(tokens)
  {
    if Fenced(tokens) {
      assert !Stray(tokens, 0);
      FencedEnds(tokens, 0);
    } else {
      var k :| 0 <= k < |tokens| && Stray(tokens, k);
      forall n: nat ensures !EndsIn(tokens, 0, n) {
        StrayNeverEnds(tokens, 0, k, n);
      }
    }
  }

  /** A run of other tokens opens and closes no fence. */
  lemma QuietRun(tokens: seq<Token>, i: nat, j: nat)
    requires i <= j <= |tokens|
    requires Fenced(tokens) && i < j && Quiet(tokens, i, j)
    ensures Unclosed(tokens, j) <==> Unclosed(tokens, i)
    ensures j < |tokens| ==> !tokens[j].kind.IsFenced()
  {
    assert !Stray(tokens, j);
    if Unclosed(tokens, i) {
      var k :| 0 <= k < i && OpenEnd(tokens, k);
      assert 0 <= k < j && OpenEnd(tokens, k);
    }
  }

  lemma FenceRun(tokens: seq<Token>, i: nat)
    requires Fenced(tokens) && i < |tokens| && tokens[i].kind == FenceOpen
    ensures var (next, closed) := FenceEnd(tokens, i);
      && (next < |tokens| ==> !tokens[next].kind.IsFenced())
      && (Unclosed(tokens, next) <==> Unclosed(tokens, i) || !closed)
  {
    var j := RunEnd(tokens, i + 1, CodeText);
    var closed := j < |tokens| && tokens[j].kind == FenceClose;
    var next := if closed then j + 1 else j;
    RunStops(tokens, i + 1, CodeText);
    assert !Stray(tokens, next);
    forall k | i <= k < next ensures OpenEnd(tokens, k) <==> k == j - 1 && !closed {
      if i < k < j {
        RunKinds(tokens, i + 1, CodeText, k);
      }
      if k + 1 < j {
        RunKinds(tokens, i + 1, CodeText, k + 1);
      }
    }
    if i < j - 1 {
      RunKinds(tokens, i + 1, CodeText, j - 1);
    }
    if !closed {
      assert OpenEnd(tokens, j - 1);
    }
    if Unclosed(tokens, i) {
      var k :| 0 <= k < i && OpenEnd(tokens, k);
      assert 0 <= k < next && OpenEnd(tokens, k);
    }
  }

  /** No fence opens or runs on among these tokens. */
  ghost predicate Quiet(tokens: seq<Token>, i: nat, j: nat)
    requires i <= j <= |tokens|
  {
    forall k :: i <= k < j ==> tokens[k].kind != FenceOpen && tokens[k].kind != CodeText
  }

  lemma RunIsOneKind(tokens: seq<Token>, i: nat, kind: TokenKind)
    requires i < |tokens| && tokens[i].kind == kind
    ensures forall k :: i <= k < RunEnd(tokens, i, kind) ==> tokens[k].kind == kind
  {
    forall k | i <= k < RunEnd(tokens, i, kind) ensures tokens[k].kind == kind {
      RunKinds(tokens, i, kind, k);
    }
  }

  // ----- Diagnostics

  /** What the step at token `i` reports. */
  function Reported(tokens: seq<Token>, i: nat, line: nat): seq<nat>
    requires i < |tokens|
  {
    if tokens[i].kind == FenceOpen && !FenceEnd(tokens, i).1 then [line] else []
  }

  /** The steps, counted from 1 after `line`, at which a fence runs out unclosed. */
  function UnclosedSteps(tokens: seq<Token>, i: nat, line: nat): seq<nat>
    requires i <= |tokens|
    decreases |tokens| - i
  {
    if i == |tokens| || NextIndex(tokens, i) == i then []
    else
      Reported(tokens, i, line + 1) + UnclosedSteps(tokens, NextIndex(tokens, i), line + 1)
  }

  lemma {:induction false} UnclosedFrom(tokens: seq<Token>, i: nat, line: nat)
    requires Fenced(tokens) && i <= |tokens| && (i < |tokens| ==> !tokens[i].kind.IsFenced())
    ensures UnclosedSteps(tokens, i, line) != [] || Unclosed(tokens, i) <==> Unclosed(tokens, |tokens|)
    decreases |tokens| - i
  {
    if i < |tokens| {
      var next := NextIndex(tokens, i);
      FencedSteps(tokens, i);
      UnclosedFrom(tokens, next, line + 1);
      var kind := tokens[i].kind;
      if kind == FenceOpen {
        FenceRun(tokens, i);
      } else {
        if kind == QuoteLine || kind == ParagraphLine {
          RunIsOneKind(tokens, i, kind);
        } else if kind.IsList() {
          ListIsQuiet(tokens, i);
        }
        QuietRun(tokens, i, next);
      }
    }
  }

  /** A fence that is never closed is reported, and nothing else is. */
  lemma UnclosedIsReported(tokens: seq<Token>)
    requires Fenced(tokens)
    ensures UnclosedSteps(tokens, 0, 0) != [] <==> Unclosed(tokens, |tokens|)
  {
    assert !Stray(tokens, 0);
    UnclosedFrom(tokens, 0, 0);
  }

  // ----- Nothing lost

  // A body, and whether it stands under another block.
  datatype Held = Held(under: bool, body: Body)

  /** What the tokens say from `i` on, in reading order, with nesting forgotten:
      one body per heading, divider, fence, quote run, list item and paragraph run. */
  function Said(tokens: seq<Token>, i: nat, parse: Text -> Content): seq<Held>
    requires i <= |tokens|
    decreases |tokens| - i
  {
    if i == |tokens| then []
    else match tokens[i].kind
      case Blank => Said(tokens, i + 1, parse)
      case DividerLine => [Held(false, Body(Plain(Divider), PlainContent([])))] + Said(tokens, i + 1, parse)
      case AtxHeading =>
        [Held(false, Body(Plain(BlockTag.Heading).(level := tokens[i].level), parse(tokens[i].text)))] + Said(tokens, i + 1, parse)
      case FenceOpen =>
        var j := RunEnd(tokens, i + 1, CodeText);
        [Held(false, Body(Plain(CodeBlock).(language := tokens[i].lang), PlainContent(Join(TextsOf(tokens, i + 1, j), NEWLINE))))]
        + Said(tokens, if j < |tokens| && tokens[j].kind == FenceClose then j + 1 else j, parse)
      case QuoteLine =>
        var j := RunEnd(tokens, i + 1, QuoteLine);
        [Held(true, Body(Plain(Paragraph), parse(Join(TextsOf(tokens, i, j), SPACE))))] + Said(tokens, j, parse)
      case ParagraphLine =>
        var j := RunEnd(tokens, i + 1, ParagraphLine);
        [Held(false, Body(Plain(Paragraph), parse(Join(TextsOf(tokens, i, j), SPACE))))] + Said(tokens, j, parse)
      case Bullet => [Held(true, ItemBody(tokens[i], parse))] + Said(tokens, i + 1, parse)
      case Ordered => [Held(true, ItemBody(tokens[i], parse))] + Said(tokens, i + 1, parse)
      case TodoItem => [Held(true, ItemBody(tokens[i], parse))] + Said(tokens, i + 1, parse)
      case CodeText => []
      case FenceClose => []
  }

  /** The bodies of the rows that carry content: all but lists and quotes. */
  function Contents(rows: seq<Block>): seq<Held> {
    if rows == [] then []
    else
      var n := |rows| - 1;
      var tag := TagAt(rows, n);
      Contents(rows[..n]) + (if tag == List || tag == Quote then [] else [Held(rows[n].parent.Some?, rows[n].body)])
  }

  lemma ContentsSnoc(rows: seq<Block>, b: Block)
    ensures var tag := b.body.kind.tag;
      Contents(rows + [b]) == Contents(rows) + (if tag == List || tag == Quote then [] else [Held(b.parent.Some?, b.body)])
  {
    assert (rows + [b])[..|rows|] == rows;
  }

  /** The items of a run of list tokens, in order. */
  function Items(tokens: seq<Token>, i: nat, j: nat, parse: Text -> Content): seq<Held>
    requires i <= j <= |tokens|
  {
    if i == j then [] else Items(tokens, i, j - 1, parse) + [Held(true, ItemBody(tokens[j - 1], parse))]
  }

  lemma {:induction false} SaidItems(tokens: seq<Token>, i: nat, j: nat, parse: Text -> Content)
    requires i <= j <= |tokens| && forall t :: i <= t < j ==> tokens[t].kind.IsList()
    ensures Said(tokens, i, parse) == Items(tokens, i, j, parse) + Said(tokens, j, parse)
    decreases j - i
  {
    if i < j {
      SaidItems(tokens, i, j - 1, parse);
      assert Said(tokens, j - 1, parse) == [Held(true, ItemBody(tokens[j - 1], parse))] + Said(tokens, j, parse);
    }
  }

  lemma AddedContents(r: Run, j: nat)
    requires r.from <= j < |r.tokens|
    ensures Contents(Rows(r, j) + Added(r, j)) == Contents(Rows(r, j)) + [Held(true, ItemBody(r.tokens[j], r.parse))]
  {
    var before, added := Rows(r, j), Added(r, j);
    if Joins(r, j) {
      ContentsSnoc(before, added[0]);
    } else {
      assert before + added == before + [added[0]] + [added[1]];
      ContentsSnoc(before, added[0]);
      ContentsSnoc(before + [added[0]], added[1]);
    }
  }

  lemma {:induction false} RunContents(r: Run, j: nat)
    requires r.from <= j <= |r.tokens|
    ensures Contents(Rows(r, j)) == Contents(r.base) + Items(r.tokens, r.from, j, r.parse)
    decreases j
  {
    if r.from < j {
      var k := j - 1;
      RunContents(r, k);
      OneMoreItem(r, k, j);
    }
  }

  lemma OneMoreItem(r: Run, k: nat, j: nat)
    requires r.from <= k && j == k + 1 <= |r.tokens|
    requires Contents(Rows(r, k)) == Contents(r.base) + Items(r.tokens, r.from, k, r.parse)
    ensures Contents(Rows(r, j)) == Contents(r.base) + Items(r.tokens, r.from, j, r.parse)
  {
    RowsStep(r, k, j);
    AddedContents(r, k);
    ItemsStep(r.tokens, r.from, k, j, r.parse);
  }

  lemma ItemsStep(tokens: seq<Token>, i: nat, k: nat, j: nat, parse: Text -> Content)
    requires i <= k && j == k + 1 <= |tokens|
    ensures Items(tokens, i, j, parse) == Items(tokens, i, k, parse) + [Held(true, ItemBody(tokens[k], parse))]
  {
  }

  lemma RowsStep(r: Run, k: nat, j: nat)
    requires r.from <= k && j == k + 1 <= |r.tokens|
    ensures Rows(r, j) == Rows(r, k) + Added(r, k)
  {
  }

  /** The step at token `i` adds what the tokens it takes say. */
  ghost predicate Says(tokens: seq<Token>, i: nat, base: seq<Block>, parse: Text -> Content, said: seq<Held>)
    requires i < |tokens|
  {
    && Contents(StepRows(tokens, i, base, parse)) == Contents(base) + said
    && Said(tokens, i, parse) == said + Said(tokens, NextIndex(tokens, i), parse)
  }

  lemma ListStep(tokens: seq<Token>, i: nat, base: seq<Block>, parse: Text -> Content, e: nat)
    requires i < |tokens| && tokens[i].kind.IsList() && e == ListEnd(tokens, i, i + 1)
    ensures StepRows(tokens, i, base, parse) == Rows(Run(tokens, i, base, parse), e) && NextIndex(tokens, i) == e
    ensures forall t :: i <= t < e ==> tokens[t].kind.IsList()
  {
    forall t | i < t < e ensures tokens[t].kind.IsList() {
      ListEndContinues(tokens, i, i + 1, t);
    }
  }

  lemma ListSays(tokens: seq<Token>, i: nat, base: seq<Block>, parse: Text -> Content, e: nat)
    requires i < |tokens| && tokens[i].kind.IsList() && e == ListEnd(tokens, i, i + 1)
    ensures Says(tokens, i, base, parse, Items(tokens, i, e, parse))
  {
    var r := Run(tokens, i, base, parse);
    ListStep(tokens, i, base, parse, e);
    RunContents(r, e);
    SaidItems(tokens, i, e, parse);
    SaysOf(tokens, i, base, parse, Items(tokens, i, e, parse), Rows(r, e), e);
  }

  lemma SaysOf(tokens: seq<Token>, i: nat, base: seq<Block>, parse: Text -> Content, said: seq<Held>, rows: seq<Block>, next: nat)
    requires i < |tokens| && next <= |tokens| && rows == StepRows(tokens, i, base, parse) && next == NextIndex(tokens, i)
    requires Contents(rows) == Contents(base) + said && Said(tokens, i, parse) == said + Said(tokens, next, parse)
    ensures Says(tokens, i, base, parse, said)
  {
  }

  lemma QuoteSays(tokens: seq<Token>, i: nat, base: seq<Block>, parse: Text -> Content)
    requires i < |tokens| && tokens[i].kind == QuoteLine
    ensures Says(tokens, i, base, parse, [Held(true, ProseOf(tokens, i, QuoteLine, parse))])
  {
    var n := |base|;
    var quote := Block(n, None, Body(Plain(Quote), PlainContent([])));
    var line := Block(n + 1, Some(n), ProseOf(tokens, i, QuoteLine, parse));
    ContentsSnoc(base, quote);
    ContentsSnoc(base + [quote], line);
    assert Contents(base) + [] == Contents(base);
  }

  lemma LeafSays(tokens: seq<Token>, i: nat, base: seq<Block>, parse: Text -> Content, body: Body)
    requires i < |tokens| && StepRows(tokens, i, base, parse) == Leaf(base, body)
    requires body.kind.tag != List && body.kind.tag != Quote
    requires Said(tokens, i, parse) == [Held(false, body)] + Said(tokens, NextIndex(tokens, i), parse)
    ensures Says(tokens, i, base, parse, [Held(false, body)])
  {
    ContentsSnoc(base, Block(|base|, None, body));
  }

  lemma BlankSays(tokens: seq<Token>, i: nat, base: seq<Block>, parse: Text -> Content)
    requires i < |tokens| && tokens[i].kind == Blank
    ensures Says(tokens, i, base, parse, [])
  {
  }

  /** What a step that adds one top-level leaf adds. */
  function LeafOf(tokens: seq<Token>, i: nat, parse: Text -> Content): Body
    requires i < |tokens|
  {
    match tokens[i].kind
    case AtxHeading => Body(Plain(BlockTag.Heading).(level := tokens[i].level), parse(tokens[i].text))
    case FenceOpen => CodeOf(tokens, i)
    case ParagraphLine => ProseOf(tokens, i, ParagraphLine, parse)
    case _ => Body(Plain(Divider), PlainContent([]))
  }

  lemma StepSays(tokens: seq<Token>, i: nat, base: seq<Block>, parse: Text -> Content) returns (said: seq<Held>)
    requires i < |tokens| && !tokens[i].kind.IsFenced()
    ensures Says(tokens, i, base, parse, said)
  {
    var kind := tokens[i].kind;
    if kind == Blank {
      BlankSays(tokens, i, base, parse);
      said := [];
    } else if kind.IsList() {
      said := Items(tokens, i, ListEnd(tokens, i, i + 1), parse);
      ListSays(tokens, i, base, parse, ListEnd(tokens, i, i + 1));
    } else if kind == QuoteLine {
      said := [Held(true, ProseOf(tokens, i, QuoteLine, parse))];
      QuoteSays(tokens, i, base, parse);
    } else {
      said := [Held(false, LeafOf(tokens, i, parse))];
      LeafSays(tokens, i, base, parse, LeafOf(tokens, i, parse));
    }
  }

  /** The rows hold what the tokens say, in order, nothing lost and nothing twice. */
  lemma {:induction false} NothingIsLost(tokens: seq<Token>, i: nat, base: seq<Block>, parse: Text -> Content)
    requires Fenced(tokens) && i <= |tokens| && (i < |tokens| ==> !tokens[i].kind.IsFenced())
    ensures Contents(LoweredRows(tokens, i, base, parse)) == Contents(base) + Said(tokens, i, parse)
    decreases |tokens| - i
  {
    if i < |tokens| {
      var next := NextIndex(tokens, i);
      FencedSteps(tokens, i);
      var said := StepSays(tokens, i, base, parse);
      NothingIsLost(tokens, next, StepRows(tokens, i, base, parse), parse);
      Regroup(Contents(base), said, Said(tokens, next, parse));
    }
  }

  // ----- The pass

  class Lowerer {
    var blocks: seq<Block>
    var next: nat

    ghost predicate Valid()
      reads this
    {
      next == |blocks| && Lowered(blocks)
    }

    constructor ()
      ensures Valid() && blocks == []
    {
      blocks, next := [], 0;
    }

    method Emit(parent: Option<BlockId>, kind: BlockKind, content: Content) returns (id: BlockId)
      requires next == |blocks|
      modifies this
      ensures id == old(next) && next == |blocks|
      ensures blocks == old(blocks) + [Block(id, parent, Body(kind, content))]
    {
      id := next;
      next := next + 1;
      blocks := blocks + [Block(id, parent, Body(kind, content))];
    }

    method LastChildOf(parent: BlockId) returns (child: Option<BlockId>)
      ensures child == LastChild(blocks, Some(parent))
    {
      var k := |blocks| - 1;
      assert blocks[..|blocks|] == blocks;
      while k >= 0
        invariant -1 <= k < |blocks|
        invariant LastChild(blocks[..k + 1], Some(parent)) == LastChild(blocks, Some(parent))
      {
        assert blocks[..k + 1][..k] == blocks[..k];
        if blocks[k].parent == Some(parent) {
          return Some(blocks[k].id);
        }
        k := k - 1;
      }
      return None;
    }

    /** Adds a top-level leaf. */
    method EmitLeaf(body: Body)
      requires Valid() && body.kind.tag != Quote && body.kind.tag != ListItem && body.kind.tag != List
      modifies this
      ensures Valid() && blocks == Leaf(old(blocks), body)
    {
      LoweredSnoc(blocks, Block(|blocks|, None, body));
      var _ := Emit(None, body.kind, body.content);
    }

    /** Adds a top-level quote with its one paragraph. */
    method EmitQuote(content: Content)
      requires Valid()
      modifies this
      ensures Valid()
      ensures var n := old(|blocks|);
        blocks == old(blocks) + [Block(n, None, Body(Plain(Quote), PlainContent([])))] + [Block(n + 1, Some(n), Body(Plain(Paragraph), content))]
    {
      ghost var n := |blocks|;
      LoweredQuote(blocks, Block(n, None, Body(Plain(Quote), PlainContent([]))), Block(n + 1, Some(n), Body(Plain(Paragraph), content)));
      var id := Emit(None, Plain(Quote), PlainContent([]));
      var _ := Emit(Some(id), Plain(Paragraph), content);
    }

    /** Adds an item to the open list `n`. */
    method EmitItem(n: nat, body: Body) returns (id: BlockId)
      requires Valid() && OpenList(blocks, n) && body.kind.tag == ListItem
      modifies this
      ensures Valid() && OpenList(blocks, n) && id == old(|blocks|)
      ensures blocks == old(blocks) + [Block(id, Some(n), body)]
      ensures OpenItem(blocks, id) && LastChild(blocks, Some(n)) == Some(id)
    {
      LoweredSnoc(blocks, Block(|blocks|, Some(n), body));
      id := Emit(Some(n), body.kind, body.content);
    }

    /** Starts a list, at the top or inside the open item `parent`. */
    method EmitList(parent: Option<BlockId>, kind: ListKind) returns (id: BlockId)
      requires Valid() && (parent.Some? ==> OpenItem(blocks, parent.value))
      modifies this
      ensures Valid() && OpenList(blocks, id) && id == old(|blocks|)
      ensures blocks == old(blocks) + [Block(id, parent, ListBody(kind))]
      ensures LastChild(blocks, Some(id)) == None
    {
      LoweredSnoc(blocks, Block(|blocks|, parent, ListBody(kind)));
      id := Emit(parent, Plain(List).(listKind := kind), PlainContent([]));
      NoChildYet(blocks, id);
    }

    /** The item that a deeper list goes under: the last one, or an empty one. */
    method OwnerIn(n: nat) returns (owner: BlockId)
      requires Valid() && OpenList(blocks, n)
      modifies this
      ensures Valid() && OpenList(blocks, n) && OpenItem(blocks, owner) && owner > n
      ensures LastChild(blocks, Some(n)) == Some(owner)
      ensures blocks == if old(LastChild(blocks, Some(n))).Some? then old(blocks)
                        else old(blocks) + [Block(old(|blocks|), Some(n), Body(Plain(ListItem), PlainContent([])))]
    {
      var last := LastChildOf(n);
      if last == None {
        owner := EmitItem(n, Body(Plain(ListItem), PlainContent([])));
      } else {
        LastChildHangs(blocks, n);
        owner := last.value;
      }
    }

    /** The rows of the tokens before `i`, with the list at `n` open and `p` its last item. */
    ghost predicate Open(r: Run, p: nat, i: nat, n: nat)
      requires r.from <= p < i <= |r.tokens|
      reads this
    {
      Valid() && blocks == Rows(r, i) && OpenList(blocks, n) && LastChild(blocks, Some(n)) == Some(ItemId(r, p))
    }

    /** The item of the token that starts a list. */
    method LowerFirst(ghost r: Run, tokens: seq<Token>, i: nat, n: nat, parse: Text -> Content) returns (j: nat)
      requires r.tokens == tokens && r.parse == parse && r.from <= i < |tokens| && tokens[i].kind.IsList()
      requires Valid() && OpenList(blocks, n) && n == |Rows(r, i)| && !Joins(r, i)
      requires blocks == Rows(r, i) + [Block(n, OwnerOf(r, i), ListBody(ListKindOf(tokens[i].kind)))]
      modifies this
      ensures j == i + 1 && Going(r, i, i, j, n, OwnerOf(r, i)) && Open(r, i, j, n)
    {
      j := i + 1;
      FirstGoes(r, i, j, n);
      var _ := EmitItem(n, ItemBody(tokens[i], parse));
    }

    /** The item of a token on the level and of the kind of an open list. */
    method LowerItem(ghost r: Run, tokens: seq<Token>, ghost first: nat, ghost p: nat, i: nat, n: nat, parse: Text -> Content,
                     ghost parent: Option<BlockId>) returns (j: nat)
      requires r.tokens == tokens && r.parse == parse && i < |tokens| && Going(r, first, p, i, n, parent) && Open(r, p, i, n)
      requires tokens[i].indent == tokens[first].indent && Continues(tokens, first, i)
      modifies this
      ensures j == i + 1 && Going(r, first, i, j, n, parent) && Open(r, i, j, n)
    {
      j := i + 1;
      ItemGoes(r, first, p, i, j, n, parent);
      var _ := EmitItem(n, ItemBody(tokens[i], parse));
    }

    /** The list a deeper token starts, under the last item of the open list. */
    method LowerDeeper(ghost r: Run, tokens: seq<Token>, ghost first: nat, ghost p: nat, i: nat, n: nat, parse: Text -> Content,
                       ghost parent: Option<BlockId>) returns (j: nat)
      requires r.tokens == tokens && r.parse == parse && i < |tokens| && Going(r, first, p, i, n, parent) && Open(r, p, i, n)
      requires tokens[i].kind.IsList() && tokens[i].indent > tokens[first].indent
      modifies this
      ensures i < j <= |tokens| && Going(r, first, p, j, n, parent) && Open(r, p, j, n)
      decreases |tokens| - i, 2
    {
      var owner := OwnerIn(n);
      NextNests(r, p, i);
      ghost var rows, q := blocks, i;
      j, q := LowerListAt(r, tokens, i, tokens[i].indent, Some(owner), parse);
      NestedGoes(r, first, p, i, n, parent, q, j, |rows|);
      NestedOpen(r, p, i, j, rows, blocks, n);
    }

    /** One list with the lists nested in it, from its first token to the first token
        that is no part of it. */
    method LowerListAt(ghost r: Run, tokens: seq<Token>, from: nat, indent: nat, parent: Option<BlockId>, parse: Text -> Content)
      returns (i: nat, ghost last: nat)
      requires r.tokens == tokens && r.parse == parse && r.from <= from < |tokens|
      requires tokens[from].kind.IsList() && tokens[from].indent == indent
      requires Valid() && (parent.Some? ==> OpenItem(blocks, parent.value))
      requires blocks == Rows(r, from) && !Joins(r, from) && OwnerOf(r, from) == parent
      modifies this
      ensures i == ListEnd(tokens, from, from + 1)
      ensures Going(r, from, last, i, old(|blocks|), parent) && Open(r, last, i, old(|blocks|)) && Stops(r, last, i)
      decreases |tokens| - from, 1
    {
      var kind := ListKindOf(tokens[from].kind);
      var listId := EmitList(parent, kind);
      var start := LowerFirst(r, tokens, from, listId, parse);
      i, last := LowerRest(r, tokens, from, indent, kind, listId, parent, parse, start);
    }

    /** One more entry of an open list. */
    method LowerEntry(ghost r: Run, tokens: seq<Token>, ghost from: nat, ghost last: nat, i: nat, indent: nat, listId: BlockId,
                      ghost parent: Option<BlockId>, parse: Text -> Content) returns (next: nat, ghost later: nat)
      requires r.tokens == tokens && r.parse == parse && from < |tokens| && i < |tokens| && tokens[from].indent == indent
      requires Going(r, from, last, i, listId, parent) && Open(r, last, i, listId) && Continues(tokens, from, i)
      modifies this
      ensures i < next <= |tokens|
      ensures Going(r, from, later, next, listId, parent) && Open(r, later, next, listId)
      decreases |tokens| - i, 3
    {
      if tokens[i].indent > indent {
        later := last;
        next := LowerDeeper(r, tokens, from, last, i, listId, parse, parent);
      } else {
        later := i;
        next := LowerItem(r, tokens, from, last, i, listId, parse, parent);
      }
    }

    /** The entries of an open list after its first item. */
    method LowerRest(ghost r: Run, tokens: seq<Token>, ghost from: nat, indent: nat, kind: ListKind, listId: BlockId,
                     ghost parent: Option<BlockId>, parse: Text -> Content, start: nat)
      returns (i: nat, ghost last: nat)
      requires r.tokens == tokens && r.parse == parse && from < |tokens| && start == from + 1
      requires tokens[from].indent == indent && ListKindOf(tokens[from].kind) == kind
      requires Going(r, from, from, start, listId, parent) && Open(r, from, start, listId)
      modifies this
      ensures start <= i && i == ListEnd(tokens, from, start)
      ensures Going(r, from, last, i, listId, parent) && Open(r, last, i, listId) && Stops(r, last, i)
      decreases |tokens| - start, 4
    {
      i, last := start, from;
      while i < |tokens|
        invariant start <= i <= |tokens| && Going(r, from, last, i, listId, parent) && Open(r, last, i, listId)
      {
        var tok := tokens[i];
        if !tok.kind.IsList() || tok.indent < indent || (tok.indent == indent && ListKindOf(tok.kind) != kind) {
          break;
        }
        i, last := LowerEntry(r, tokens, from, last, i, indent, listId, parent, parse);
      }
      RestEnds(r, from, last, start, i, listId, parent);
    }
  }

  lemma RestEnds(r: Run, from: nat, last: nat, start: nat, i: nat, n: nat, parent: Option<BlockId>)
    requires Going(r, from, last, i, n, parent) && from < start <= i && (i == |r.tokens| || !Continues(r.tokens, from, i))
    ensures i == ListEnd(r.tokens, from, start) && Stops(r, last, i)
  {
    ListEndSkips(r.tokens, from, start, i);
  }

  /** The list at `n` that token `first` starts goes on with token `i`; `p` is its last item. */
  ghost predicate Going(r: Run, first: nat, p: nat, i: nat, n: nat, parent: Option<BlockId>) {
    && r.from <= first <= p && LastItem(r, p, i)
    && Continues(r.tokens, first, p) && r.tokens[p].indent == r.tokens[first].indent
    && ListId(r, p) == n && OwnerOf(r, p) == parent
    && Level(r.tokens, first, i) && Deeper(r.tokens, p, i)
  }

  /** All tokens from `first` to `i` belong to its list or are nested in it. */
  ghost predicate Level(tokens: seq<Token>, first: nat, i: nat) {
    first < i <= |tokens| && forall t :: first <= t < i ==> Continues(tokens, first, t)
  }

  ghost predicate Deeper(tokens: seq<Token>, p: nat, i: nat) {
    p < i <= |tokens| && forall t :: p < t < i ==> tokens[t].indent > tokens[p].indent
  }

  lemma LevelGrows(tokens: seq<Token>, first: nat, i: nat, j: nat)
    requires Level(tokens, first, i) && i < |tokens| && j == i + 1 && Continues(tokens, first, i)
    ensures Level(tokens, first, j) && Deeper(tokens, i, j)
  {
  }

  lemma ItemGoes(r: Run, first: nat, p: nat, i: nat, j: nat, n: nat, parent: Option<BlockId>)
    requires Going(r, first, p, i, n, parent) && i < |r.tokens| && j == i + 1
    requires r.tokens[i].indent == r.tokens[first].indent && Continues(r.tokens, first, i)
    ensures Going(r, first, i, j, n, parent)
    ensures Rows(r, j) == Rows(r, i) + [Block(|Rows(r, i)|, Some(n), ItemBody(r.tokens[i], r.parse))]
    ensures ItemId(r, i) == |Rows(r, i)|
  {
    NextJoins(r, p, i);
    JoinedRow(r, i, j, n);
    LevelGrows(r.tokens, first, i, j);
  }

  lemma JoinedRow(r: Run, i: nat, j: nat, n: nat)
    requires r.from <= i < |r.tokens| && j == i + 1 && Joins(r, i) && ListId(r, i) == n
    ensures Rows(r, j) == Rows(r, i) + [Block(|Rows(r, i)|, Some(n), ItemBody(r.tokens[i], r.parse))]
    ensures ItemId(r, i) == |Rows(r, i)|
  {
  }

  lemma NestedGoes(r: Run, first: nat, p: nat, i: nat, n: nat, parent: Option<BlockId>, q: nat, j: nat, m: nat)
    requires Going(r, first, p, i, n, parent) && i < |r.tokens| && r.tokens[i].kind.IsList()
    requires r.tokens[i].indent > r.tokens[first].indent
    requires Going(r, i, q, j, m, Some(ItemId(r, p))) && Stops(r, q, j)
    ensures Going(r, first, p, j, n, parent)
  {
    forall t | i <= t < j ensures Continues(r.tokens, first, t) && r.tokens[t].indent >= r.tokens[i].indent {
      assert Continues(r.tokens, i, t);
    }
    NestedEnds(r, p, i, q, j);
  }

  /** A token that starts a list adds it first. */
  lemma NestedRow(r: Run, i: nat, j: nat)
    requires r.from <= i < j <= |r.tokens| && !Joins(r, i)
    ensures Rows(r, i) < Rows(r, j) && Rows(r, j)[|Rows(r, i)|].parent == OwnerOf(r, i)
  {
    RowsGrow(r, i + 1, j);
  }

  /** A list whose rows run to the end: more can still be added under it. */
  ghost predicate OpenList(rows: seq<Block>, n: nat) {
    n < |rows| && TagAt(rows, n) == List && Hangs(rows, n, n + 1)
  }

  ghost predicate OpenItem(rows: seq<Block>, n: nat) {
    n < |rows| && TagAt(rows, n) == ListItem && Hangs(rows, n, n + 1)
  }

  lemma FirstGoes(r: Run, i: nat, j: nat, n: nat)
    requires r.from <= i < |r.tokens| && j == i + 1 && !Joins(r, i) && r.tokens[i].kind.IsList() && n == |Rows(r, i)|
    ensures Going(r, i, i, j, n, OwnerOf(r, i)) && ItemId(r, i) == n + 1
    ensures Rows(r, j) == Rows(r, i) + [Block(n, OwnerOf(r, i), ListBody(ListKindOf(r.tokens[i].kind)))]
                          + [Block(n + 1, Some(n), ItemBody(r.tokens[i], r.parse))]
  {
    StartedRows(r, i, j, n);
    assert LastItem(r, i, j);
  }

  lemma StartedRows(r: Run, i: nat, j: nat, n: nat)
    requires r.from <= i < |r.tokens| && j == i + 1 && !Joins(r, i) && n == |Rows(r, i)|
    ensures ListId(r, i) == n && ItemId(r, i) == n + 1
    ensures Rows(r, j) == Rows(r, i) + [Block(n, OwnerOf(r, i), ListBody(ListKindOf(r.tokens[i].kind)))]
                          + [Block(n + 1, Some(n), ItemBody(r.tokens[i], r.parse))]
  {
    assert Rows(r, i + 1) == Rows(r, i) + Added(r, i);
  }

  /** A nested list that hangs below the last item of an open list leaves both as they were. */
  lemma NestedKeepsOpen(rows: seq<Block>, more: seq<Block>, n: nat)
    requires rows < more && OpenList(rows, n) && OpenList(more, |rows|)
    requires more[|rows|].parent.Some? && more[|rows|].parent.value > n
    ensures OpenList(more, n) && LastChild(more, Some(n)) == LastChild(rows, Some(n))
  {
    forall k | |rows| <= k < |more| ensures more[k].parent.Some? && more[k].parent.value > n {
    }
    LastChildStays(rows, more, n);
    forall k | n + 1 <= k < |rows| ensures more[k] == rows[k] {
    }
  }

  lemma NestedOpen(r: Run, p: nat, i: nat, j: nat, rows: seq<Block>, more: seq<Block>, n: nat)
    requires r.from <= p < i < j <= |r.tokens| && rows == Rows(r, i) && more == Rows(r, j)
    requires !Joins(r, i) && OwnerOf(r, i) == Some(ItemId(r, p)) && ItemId(r, p) > n
    requires OpenList(rows, n) && OpenList(more, |rows|) && LastChild(rows, Some(n)) == Some(ItemId(r, p))
    ensures OpenList(more, n) && LastChild(more, Some(n)) == Some(ItemId(r, p))
  {
    NestedRow(r, i, j);
    NestedKeepsOpen(rows, more, n);
  }

  lemma {:induction false} LastChildStays(rows: seq<Block>, more: seq<Block>, q: BlockId)
    requires rows <= more && forall k :: |rows| <= k < |more| ==> more[k].parent != Some(q)
    ensures LastChild(more, Some(q)) == LastChild(rows, Some(q))
    decreases |more|
  {
    if |rows| < |more| {
      LastChildStays(rows, more[..|more| - 1], q);
    } else {
      assert rows == more;
    }
  }

  lemma NoChildYet(rows: seq<Block>, n: nat)
    requires NumberedRows(rows) && |rows| == n + 1
    ensures LastChild(rows, Some(n)) == None
  {
    LastChildIsLast(rows, Some(n));
  }

  lemma NumberedSnoc(rows: seq<Block>, b: Block)
    requires NumberedRows(rows) && b.id == |rows|
    requires b.parent.Some? ==> b.parent.value < |rows| && Hangs(rows, b.parent.value, b.parent.value + 1)
    ensures NumberedRows(rows + [b])
  {
    var all := rows + [b];
    forall k | 0 <= k < |all| ensures all[..k] == rows[..k] {
    }
    assert rows[..|rows|] == rows;
  }

  /** Adding a childless row that fits keeps the shape. */
  lemma LoweredSnoc(rows: seq<Block>, b: Block)
    requires Lowered(rows) && b.id == |rows| && b.body.kind.tag != Quote
    requires b.parent == None ==> b.body.kind.tag != ListItem
    requires b.parent.Some? ==>
      && b.parent.value < |rows| && Hangs(rows, b.parent.value, b.parent.value + 1)
      && TagAt(rows, b.parent.value) != Quote
      && PairAllowed(TagAt(rows, b.parent.value), b.body.kind.tag)
    ensures Lowered(rows + [b])
  {
    NumberedSnoc(rows, b);
    assert forall k :: 0 <= k < |rows| ==> (rows + [b])[k] == rows[k];
  }

  /** Adding a top-level quote and its paragraph keeps the shape. */
  lemma LoweredQuote(rows: seq<Block>, q: Block, p: Block)
    requires Lowered(rows) && q.id == |rows| && p.id == |rows| + 1
    requires q.parent == None && q.body.kind.tag == Quote
    requires p.parent == Some(q.id) && p.body.kind.tag == Paragraph
    ensures Lowered(rows + [q] + [p])
  {
    NumberedSnoc(rows, q);
    NumberedSnoc(rows + [q], p);
    QuoteKeepsGrammar(rows, |rows|, rows + [q] + [p]);
  }

  lemma QuoteKeepsGrammar(rows: seq<Block>, n: nat, all: seq<Block>)
    requires ListGrammar(rows) && n == |rows| && |all| == n + 2
    requires forall k :: 0 <= k < n ==> all[k] == rows[k] && (rows[k].parent.Some? ==> rows[k].parent.value < n)
    requires all[n].parent == None && all[n].body.kind.tag == Quote
    requires all[n + 1].parent == Some(n) && all[n + 1].body.kind.tag == Paragraph
    ensures ListGrammar(all)
  {
    QuoteKeepsPairs(rows, n, all);
  }

  lemma QuoteKeepsPairs(rows: seq<Block>, n: nat, all: seq<Block>)
    requires PairsAllowed(rows) && n == |rows| && |all| == n + 2
    requires forall k :: 0 <= k < n ==> all[k] == rows[k] && (rows[k].parent.Some? ==> rows[k].parent.value < n)
    requires all[n].parent == None && all[n].body.kind.tag == Quote
    requires all[n + 1].parent == Some(n) && all[n + 1].body.kind.tag == Paragraph
    ensures PairsAllowed(all)
  {
  }

  // ----- All tokens

  /** One step: the rows of token `i` and of those that go with it. */
  method LowerStep(l: Lowerer, tokens: seq<Token>, i: nat, parse: Text -> Content) returns (next: nat)
    requires l.Valid() && i < |tokens| && !tokens[i].kind.IsFenced()
    modifies l
    ensures l.Valid() && next == NextIndex(tokens, i) && l.blocks == StepRows(tokens, i, old(l.blocks), parse)
  {
    var tok := tokens[i];
    next := i + 1;
    match tok.kind {
      case Blank =>
      case DividerLine =>
        l.EmitLeaf(Body(Plain(Divider), PlainContent([])));
      case AtxHeading =>
        l.EmitLeaf(Body(Plain(BlockTag.Heading).(level := tok.level), parse(tok.text)));
      case FenceOpen =>
        next := LowerFence(l, tokens, i);
      case QuoteLine =>
        next := LowerQuote(l, tokens, i, parse);
      case ParagraphLine =>
        next := LowerParagraph(l, tokens, i, parse);
      case Bullet =>
        next := LowerList(l, tokens, i, parse);
      case Ordered =>
        next := LowerList(l, tokens, i, parse);
      case TodoItem =>
        next := LowerList(l, tokens, i, parse);
    }
  }

  method LowerQuote(l: Lowerer, tokens: seq<Token>, i: nat, parse: Text -> Content) returns (next: nat)
    requires l.Valid() && i < |tokens| && tokens[i].kind == QuoteLine
    modifies l
    ensures l.Valid() && next == NextIndex(tokens, i) && l.blocks == StepRows(tokens, i, old(l.blocks), parse)
  {
    var lines;
    lines, next := TakeRun(tokens, i, QuoteLine);
    l.EmitQuote(parse(Join(lines, SPACE)));
  }

  method LowerParagraph(l: Lowerer, tokens: seq<Token>, i: nat, parse: Text -> Content) returns (next: nat)
    requires l.Valid() && i < |tokens| && tokens[i].kind == ParagraphLine
    modifies l
    ensures l.Valid() && next == NextIndex(tokens, i) && l.blocks == StepRows(tokens, i, old(l.blocks), parse)
  {
    var lines;
    lines, next := TakeRun(tokens, i, ParagraphLine);
    l.EmitLeaf(Body(Plain(Paragraph), parse(Join(lines, SPACE))));
  }

  method LowerFence(l: Lowerer, tokens: seq<Token>, i: nat) returns (next: nat)
    requires l.Valid() && i < |tokens| && tokens[i].kind == FenceOpen
    modifies l
    ensures next == FenceEnd(tokens, i).0
    ensures l.Valid() && l.blocks == Leaf(old(l.blocks), CodeOf(tokens, i))
  {
    var texts, j := TakeRun(tokens, i + 1, CodeText);
    l.EmitLeaf(Body(Plain(CodeBlock).(language := tokens[i].lang), PlainContent(Join(texts, NEWLINE))));
    next := if j < |tokens| && tokens[j].kind == FenceClose then j + 1 else j;
  }

  /** A top-level list with everything nested in it. */
  method LowerList(l: Lowerer, tokens: seq<Token>, i: nat, parse: Text -> Content) returns (next: nat)
    requires l.Valid() && i < |tokens| && tokens[i].kind.IsList()
    modifies l
    ensures next == ListEnd(tokens, i, i + 1)
    ensures l.Valid() && l.blocks == Rows(Run(tokens, i, old(l.blocks), parse), next)
  {
    ghost var r, last := Run(tokens, i, l.blocks, parse), i;
    next, last := l.LowerListAt(r, tokens, i, tokens[i].indent, None, parse);
  }

  /** The pass at token `i`: what is done and what is left make up the whole. */
  ghost predicate Passing(tokens: seq<Token>, i: nat, rows: seq<Block>, parse: Text -> Content, line: nat, diags: seq<nat>) {
    && i <= |tokens| && (i < |tokens| ==> !tokens[i].kind.IsFenced())
    && LoweredRows(tokens, i, rows, parse) == LoweredRows(tokens, 0, [], parse)
    && diags + UnclosedSteps(tokens, i, line) == UnclosedSteps(tokens, 0, 0)
  }

  lemma RowsPass(tokens: seq<Token>, i: nat, rows: seq<Block>, parse: Text -> Content)
    requires i < |tokens| && i < NextIndex(tokens, i)
    ensures LoweredRows(tokens, i, rows, parse)
         == LoweredRows(tokens, NextIndex(tokens, i), StepRows(tokens, i, rows, parse), parse)
  {
  }

  lemma ReportsPass(tokens: seq<Token>, i: nat, line: nat, diags: seq<nat>)
    requires i < |tokens| && i < NextIndex(tokens, i)
    ensures diags + UnclosedSteps(tokens, i, line)
         == diags + Reported(tokens, i, line + 1) + UnclosedSteps(tokens, NextIndex(tokens, i), line + 1)
  {
  }

  lemma Passes(tokens: seq<Token>, i: nat, rows: seq<Block>, parse: Text -> Content, line: nat, diags: seq<nat>)
    requires Fenced(tokens) && i < |tokens| && Passing(tokens, i, rows, parse, line, diags)
    ensures i < NextIndex(tokens, i)
    ensures Passing(tokens, NextIndex(tokens, i), StepRows(tokens, i, rows, parse), parse, line + 1,
                    diags + Reported(tokens, i, line + 1))
  {
    FencedSteps(tokens, i);
    RowsPass(tokens, i, rows, parse);
    ReportsPass(tokens, i, line, diags);
  }

  /** On every token list the lexer can produce the pass ends, with the rows the tokens
      stand for, in depth-first order and keeping the list grammar, and a report for
      every fence that is never closed. */
  method Lower(tokens: seq<Token>, parse: Text -> Content) returns (rows: seq<Block>, diags: seq<nat>)
    requires Fenced(tokens)
    ensures rows == LoweredRows(tokens, 0, [], parse) && Lowered(rows)
    ensures diags == UnclosedSteps(tokens, 0, 0)
  {
    var l := new Lowerer();
    var i, line := 0, 0;
    diags := [];
    assert !Stray(tokens, 0);
    while i < |tokens|
      invariant l.Valid() && fresh(l) && Passing(tokens, i, l.blocks, parse, line, diags)
      decreases |tokens| - i
    {
      Passes(tokens, i, l.blocks, parse, line, diags);
      line := line + 1;
      diags := diags + Reported(tokens, i, line);
      i := LowerStep(l, tokens, i, parse);
    }
    rows := l.blocks;
  }
}
