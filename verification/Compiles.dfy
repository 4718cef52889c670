// Lex, lower, emit, replay, compare.

module Compiles {
  import opened Options
  import opened Blocks
  import opened Forests
  import opened Operations
  import opened Positions
  import opened Outlines
  import opened Lexers
  import opened Lowerings
  import opened Replays
  import Limits

  /** Field-by-field comparison of two trees, and where they first differ. */
  method TreesEqual(t: seq<Block>, other: seq<Block>) returns (equal: bool, at: Option<nat>)
    ensures equal <==> t == other
    ensures at.Some? ==> at.value < |t| == |other| && t[at.value] != other[at.value] && t[..at.value] == other[..at.value]
  {
    if |t| != |other| {
      return false, None;
    }
    var i := 0;
    while i < |t|
      invariant 0 <= i <= |t| && t[..i] == other[..i]
    {
      var a, b := t[i], other[i];
      if a.id != b.id || a.parent != b.parent || a.body.kind != b.body.kind
         || a.body.content.text != b.body.content.text || a.body.content.marks != b.body.content.marks {
        return false, Some(i);
      }
      assert a == b;
      i := i + 1;
    }
    assert t[..i] == t && other[..i] == other;
    return true, None;
  }

  lemma GrammarIsGrammatical(rows: seq<Block>)
    requires Lowered(rows)
    ensures Grammatical(rows)
  {
  }

  /** For every source, grammar and inline parser: replaying the emitted ops
      succeeds and gives back the lowered tree, so the check always holds. */
  method Compile(g: Lexers.Grammar, parse: Text -> Content, src: Text)
    returns (tree: seq<Block>, ops: seq<Op>, holds: bool, tokens: seq<Token>, ghost lines: seq<Text>)
    ensures holds
    ensures Concat(lines) == src && tokens == Tokens(g, lines, |lines|) && Tiles(tokens, |src|) && Fenced(tokens)
    ensures tree == LoweredRows(tokens, 0, [], parse) && Lowered(tree)
    ensures ops == Emitted(tree) && ReplayFrom(Replayed([], []), 0, ops) == Ok(tree)
  {
    tokens, lines := Lex(g, src);
    var diags;
    tree, diags := Lower(tokens, parse);
    ops := Emit(tree);
    var replayed := Replay(ops);
    NumberedIsDepthFirst(tree, |tree|);
    assert tree[..|tree|] == tree;
    ReplayUndoesEmit(tree, 0);
    assert tree[..0] == [] && Emitted(tree)[0..] == ops;
    match replayed {
      case Err(_) => holds := false;
      case Ok(t) =>
        var at;
        holds, at := TreesEqual(tree, t);
    }
  }

  /** The page model accepts every op the compiler emits, from an empty page, and
      ends with the same rows the replay builds. */
  lemma PageAgreesWithReplay(page: PageId, title: string, tree: seq<Block>) returns (f: Forest)
    requires Lowered(tree)
    ensures Reads(tree, f)
    ensures Limits.Apply(State(page, title, Nil), Emitted(tree)) == Ok(State(page, title, f))
    ensures ReplayFrom(Replayed([], []), 0, Emitted(tree)) == Ok(Flatten(f, None))
  {
    GrammarIsGrammatical(tree);
    NumberedIsDepthFirst(tree, |tree|);
    assert tree[..|tree|] == tree;
    f := PageAcceptsEmitted(page, title, tree, |tree|);
    assert Emitted(tree)[..|tree|] == Emitted(tree);
    ReplayUndoesEmit(tree, 0);
    assert tree[..0] == [] && Emitted(tree)[0..] == Emitted(tree);
  }
}
