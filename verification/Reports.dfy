// Reported numbers.

module Reports {
  // The pass numbers its steps, not the lines: exactly when the two agree.

  import opened Blocks
  import opened Lexers
  import opened Nestings
  import opened Lowerings

  /** The next token goes with token `k` in one step. */
  predicate Together(tokens: seq<Token>, k: nat)
    requires k + 1 < |tokens|
  {
    var a, b := tokens[k].kind, tokens[k + 1].kind;
    || (a == b && (a == ParagraphLine || a == QuoteLine))
    || (a == FenceOpen && b.IsFenced())
    || (a.IsList() && Continues(tokens, k, k + 1))
  }

  /** How many steps the pass takes from token `from` before it is at token `i`. */
  function StepsTo(tokens: seq<Token>, from: nat, i: nat): nat
    requires from <= |tokens|
    decreases |tokens| - from
  {
    if from >= i || from == |tokens| || NextIndex(tokens, from) == from then 0
    else 1 + StepsTo(tokens, NextIndex(tokens, from), i)
  }

  /** A fence opens at token `i` and is never closed. */
  predicate UnclosedAt(tokens: seq<Token>, i: nat) {
    i < |tokens| && tokens[i].kind == FenceOpen && !FenceEnd(tokens, i).1
  }

  // ----- Steps

  lemma StepIsOneExactly(tokens: seq<Token>, k: nat)
    requires Fenced(tokens) && k + 1 < |tokens| && !tokens[k].kind.IsFenced()
    ensures NextIndex(tokens, k) == k + 1 <==> !Together(tokens, k)
  {
    var kind := tokens[k].kind;
    if kind == FenceOpen {
      RunIsEmptyExactly(tokens, k + 1, CodeText);
    } else if kind == QuoteLine || kind == ParagraphLine {
      RunIsEmptyExactly(tokens, k + 1, kind);
    }
  }

  lemma RunIsEmptyExactly(tokens: seq<Token>, i: nat, kind: TokenKind)
    requires i < |tokens|
    ensures RunEnd(tokens, i, kind) == i <==> tokens[i].kind != kind
  {
  }

  /** No fence opens inside a step. */
  lemma StepsSkipNoFence(tokens: seq<Token>, k: nat, t: nat)
    requires k < |tokens| && !tokens[k].kind.IsFenced() && k < t < NextIndex(tokens, k)
    ensures tokens[t].kind != FenceOpen
  {
    var kind := tokens[k].kind;
    if kind == FenceOpen {
      if t < RunEnd(tokens, k + 1, CodeText) {
        RunKinds(tokens, k + 1, CodeText, t);
      }
    } else if kind == QuoteLine || kind == ParagraphLine {
      RunKinds(tokens, k, kind, t);
    } else {
      ListEndContinues(tokens, k, k + 1, t);
    }
  }

  /** A step ends at or before the next fence. */
  lemma StepStopsAtFence(tokens: seq<Token>, from: nat, i: nat)
    requires Fenced(tokens) && from < i < |tokens| && !tokens[from].kind.IsFenced() && tokens[i].kind == FenceOpen
    ensures from < NextIndex(tokens, from) <= i && !tokens[NextIndex(tokens, from)].kind.IsFenced()
  {
    FencedSteps(tokens, from);
    if i < NextIndex(tokens, from) {
      StepsSkipNoFence(tokens, from, i);
    }
  }

  /** One step a token, exactly when no two tokens go together. */
  lemma {:induction false} StepsCountTokens(tokens: seq<Token>, from: nat, i: nat)
    requires Fenced(tokens) && from <= i < |tokens| && !tokens[from].kind.IsFenced() && tokens[i].kind == FenceOpen
    ensures StepsTo(tokens, from, i) <= i - from
    ensures StepsTo(tokens, from, i) == i - from <==> forall k :: from <= k < i ==> !Together(tokens, k)
    decreases i - from
  {
    if from < i {
      var next := NextIndex(tokens, from);
      StepStopsAtFence(tokens, from, i);
      StepIsOneExactly(tokens, from);
      StepsCountTokens(tokens, next, i);
    }
  }

  // ----- Reports

  lemma {:induction false} FenceIsReported(tokens: seq<Token>, from: nat, i: nat, line: nat)
    requires Fenced(tokens) && from <= i && UnclosedAt(tokens, i) && !tokens[from].kind.IsFenced()
    ensures line + StepsTo(tokens, from, i) + 1 in UnclosedSteps(tokens, from, line)
    decreases i - from
  {
    if from < i {
      StepStopsAtFence(tokens, from, i);
      FenceIsReported(tokens, NextIndex(tokens, from), i, line + 1);
    }
  }

  lemma {:induction false} ReportIsOfFence(tokens: seq<Token>, from: nat, line: nat, n: nat) returns (i: nat)
    requires Fenced(tokens) && from <= |tokens| && (from < |tokens| ==> !tokens[from].kind.IsFenced())
    requires n in UnclosedSteps(tokens, from, line)
    ensures from <= i && UnclosedAt(tokens, i) && n == line + StepsTo(tokens, from, i) + 1
    decreases |tokens| - from
  {
    if n in Reported(tokens, from, line + 1) {
      i := from;
    } else {
      FencedSteps(tokens, from);
      i := ReportIsOfFence(tokens, NextIndex(tokens, from), line + 1, n);
    }
  }

  /** For a fence opened at token `i` and never closed, a number no larger than its line
      is reported, and it is its line exactly when no two tokens before go together: no
      two lines of a paragraph, a quote or a list, and no fence with a line after it. */
  lemma ReportedLineExactly(tokens: seq<Token>, i: nat)
    requires Fenced(tokens) && UnclosedAt(tokens, i)
    ensures var n := StepsTo(tokens, 0, i) + 1;
      && n in UnclosedSteps(tokens, 0, 0) && n <= i + 1
      && (n == i + 1 <==> forall k :: 0 <= k < i ==> !Together(tokens, k))
  {
    assert !Stray(tokens, 0);
    FenceIsReported(tokens, 0, i, 0);
    StepsCountTokens(tokens, 0, i);
  }

  /** Nothing else is reported. */
  lemma OnlyFencesAreReported(tokens: seq<Token>, n: nat) returns (i: nat)
    requires Fenced(tokens) && n in UnclosedSteps(tokens, 0, 0)
    ensures UnclosedAt(tokens, i) && n == StepsTo(tokens, 0, i) + 1
  {
    assert !Stray(tokens, 0);
    i := ReportIsOfFence(tokens, 0, 0, n);
  }

  /** A paragraph of two lines is one step: the fence on line 3 is reported as 2. */
  lemma ReportCountsSteps(tokens: seq<Token>)
    requires |tokens| == 3 && tokens[0].kind == tokens[1].kind == ParagraphLine && tokens[2].kind == FenceOpen
    ensures UnclosedSteps(tokens, 0, 0) == [2]
  {
    assert RunEnd(tokens, 2, ParagraphLine) == 2;
    assert RunEnd(tokens, 0, ParagraphLine) == 2 && RunEnd(tokens, 3, CodeText) == 3;
    assert UnclosedSteps(tokens, 2, 1) == [2] + UnclosedSteps(tokens, 3, 2);
  }
}
