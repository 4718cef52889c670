// Edit scripts by the LCS table.

module TextDiffs {
  import opened Sequences

  type Token = string

  datatype Kind = Equal | Delete | Insert

  datatype Step = Step(kind: Kind, token: Token)

  type Script = seq<Step>

  datatype Coord = Coord(i: nat, j: nat)

  function Init<T>(s: seq<T>): seq<T>
    requires s != []
  {
    s[..|s| - 1]
  }

  function Last<T>(s: seq<T>): T
    requires s != []
  {
    s[|s| - 1]
  }

  // ----- What a common subsequence is

  /** `c` is `a` with some tokens dropped. */
  ghost predicate Subsequence(c: seq<Token>, a: seq<Token>) {
    c == [] || (a != [] && ((Last(c) == Last(a) && Subsequence(Init(c), Init(a))) || Subsequence(c, Init(a))))
  }

  ghost predicate Common(c: seq<Token>, a: seq<Token>, b: seq<Token>) {
    Subsequence(c, a) && Subsequence(c, b)
  }

  ghost predicate IsLongestCommon(c: seq<Token>, a: seq<Token>, b: seq<Token>) {
    Common(c, a, b) && forall d :: Common(d, a, b) ==> |d| <= |c|
  }

  lemma {:induction false} SubsequenceShrinks(c: seq<Token>, a: seq<Token>)
    requires c != [] && Subsequence(c, a)
    ensures Subsequence(Init(c), a)
  {
    if Subsequence(c, Init(a)) {
      SubsequenceShrinks(c, Init(a));
    }
    StillSubsequence(Init(c), a);
  }

  lemma StillSubsequence(c: seq<Token>, a: seq<Token>)
    requires a != [] && Subsequence(c, Init(a))
    ensures Subsequence(c, a)
  {
  }

  lemma GrowBoth(c: seq<Token>, a: seq<Token>, t: Token)
    requires Subsequence(c, a)
    ensures Subsequence(c, a + [t]) && Subsequence(c + [t], a + [t])
  {
  }

  // ----- The table

  /** The entry of the table for the whole of `a` and `b`. */
  function Lcs(a: seq<Token>, b: seq<Token>): nat
    decreases |a| + |b|
  {
    if a == [] || b == [] then 0
    else if Last(a) == Last(b) then Lcs(Init(a), Init(b)) + 1
    else if Lcs(Init(a), b) >= Lcs(a, Init(b)) then Lcs(Init(a), b)
    else Lcs(a, Init(b))
  }

  /** No common subsequence is longer than the entry. */
  lemma {:induction false} LcsBounds(c: seq<Token>, a: seq<Token>, b: seq<Token>)
    requires Common(c, a, b)
    ensures |c| <= Lcs(a, b)
    decreases |a| + |b|
  {
    if c != [] {
      if Last(a) == Last(b) {
        if Subsequence(c, Init(a)) {
          SubsequenceShrinks(c, Init(a));
        }
        if Subsequence(c, Init(b)) {
          SubsequenceShrinks(c, Init(b));
        }
        LcsBounds(Init(c), Init(a), Init(b));
      } else if Last(c) != Last(a) {
        LcsBounds(c, Init(a), b);
      } else {
        LcsBounds(c, a, Init(b));
      }
    }
  }

  /** One more token of `a` never lowers the entry. */
  lemma {:induction false} LcsGrows(a: seq<Token>, b: seq<Token>)
    requires a != []
    ensures Lcs(Init(a), b) <= Lcs(a, b)
  {
    var c := Matched(Walk(Init(a), b));
    WalkMatches(Init(a), b);
    StillSubsequence(c, a);
    LcsBounds(c, a, b);
  }

  lemma PrefixEnds<T>(s: seq<T>, i: nat)
    requires 0 < i <= |s|
    ensures s[..i] != [] && Init(s[..i]) == s[..i - 1] && Last(s[..i]) == s[i - 1]
  {
  }

  /** Each entry of the table is the entry for its two prefixes. */
  ghost predicate Filled(table: array2<nat>, a: seq<Token>, b: seq<Token>)
    reads table
  {
    && table.Length0 == |a| + 1 && table.Length1 == |b| + 1
    && forall i, j :: 0 <= i <= |a| && 0 <= j <= |b| ==> table[i, j] == Lcs(a[..i], b[..j])
  }

  method LcsTable(a: seq<Token>, b: seq<Token>) returns (table: array2<nat>)
    ensures Filled(table, a, b)
  {
    table := new nat[|a| + 1, |b| + 1]((i, j) => 0);
    var i := 1;
    while i <= |a|
      invariant 1 <= i <= |a| + 1
      invariant forall k, l :: 0 <= k < i && 0 <= l <= |b| ==> table[k, l] == Lcs(a[..k], b[..l])
      invariant forall k :: i <= k <= |a| ==> table[k, 0] == 0
    {
      var j := 1;
      while j <= |b|
        invariant 1 <= j <= |b| + 1
        invariant forall k, l :: 0 <= k < i && 0 <= l <= |b| ==> table[k, l] == Lcs(a[..k], b[..l])
        invariant forall l :: 0 <= l < j ==> table[i, l] == Lcs(a[..i], b[..l])
        invariant forall k :: i < k <= |a| ==> table[k, 0] == 0
      {
        PrefixEnds(a, i);
        PrefixEnds(b, j);
        if a[i - 1] == b[j - 1] {
          table[i, j] := table[i - 1, j - 1] + 1;
        } else if table[i - 1, j] >= table[i, j - 1] {
          table[i, j] := table[i - 1, j];
        } else {
          table[i, j] := table[i, j - 1];
        }
        j := j + 1;
      }
      i := i + 1;
    }
  }

  // ----- The walk back

  /** The last step of the script: a match, else a deletion where that keeps
      strictly more, else an insertion. */
  function LastStep(a: seq<Token>, b: seq<Token>): Step
    requires a != [] || b != []
  {
    if a != [] && b != [] && Last(a) == Last(b) then Step(Equal, Last(a))
    else if a != [] && (b == [] || Lcs(Init(a), b) > Lcs(a, Init(b))) then Step(Delete, Last(a))
    else Step(Insert, Last(b))
  }

  function Walk(a: seq<Token>, b: seq<Token>): Script
    decreases |a| + |b|
  {
    if a == [] && b == [] then []
    else
      var s := LastStep(a, b);
      Walk(if s.kind != Insert then Init(a) else a, if s.kind != Delete then Init(b) else b) + [s]
  }

  /** The cells the walk visits, from the end of both lists to their start. */
  function Cells(a: seq<Token>, b: seq<Token>): seq<Coord>
    decreases |a| + |b|
  {
    [Coord(|a|, |b|)] +
    if a == [] && b == [] then []
    else
      var s := LastStep(a, b);
      Cells(if s.kind != Insert then Init(a) else a, if s.kind != Delete then Init(b) else b)
  }

  function Reversed(s: Script): (r: Script)
    ensures |r| == |s| && forall k :: 0 <= k < |s| ==> r[k] == s[|s| - 1 - k]
  {
    if s == [] then [] else Reversed(s[1..]) + [s[0]]
  }

  lemma {:induction false} ReversedGrows(s: Script, x: Step)
    ensures Reversed(s + [x]) == [x] + Reversed(s)
  {
  }

  method TracebackWithPath(table: array2<nat>, a: seq<Token>, b: seq<Token>) returns (ops: Script, path: seq<Coord>)
    requires Filled(table, a, b)
    ensures ops == Walk(a, b) && path == Cells(a, b)
  {
    var i, j := |a|, |b|;
    var reversed: Script := [];
    path := [];
    WalkStarts(a, b);
    while i > 0 || j > 0
      invariant 0 <= i <= |a| && 0 <= j <= |b| && Walked(a, b, i, j, reversed, path)
      decreases i + j
    {
      ghost var s, k, l := WalkFrom(a, b, i, j, reversed, path);
      ghost var was := reversed;
      path := path + [Coord(i, j)];
      if i > 0 && j > 0 && a[i - 1] == b[j - 1] {
        reversed := reversed + [Step(Equal, a[i - 1])];
        i, j := i - 1, j - 1;
      } else if i > 0 && (j == 0 || table[i - 1, j] > table[i, j - 1]) {
        reversed := reversed + [Step(Delete, a[i - 1])];
        i := i - 1;
      } else {
        reversed := reversed + [Step(Insert, b[j - 1])];
        j := j - 1;
      }
      assert reversed == was + [s] && i == k && j == l;
    }
    path := path + [Coord(0, 0)];
    ops := Reversed(reversed);
  }

  /** From cell `(i, j)` on, the walk finishes what has been collected so far. */
  ghost predicate Walked(a: seq<Token>, b: seq<Token>, i: nat, j: nat, reversed: Script, path: seq<Coord>)
    requires i <= |a| && j <= |b|
  {
    && Walk(a[..i], b[..j]) + Reversed(reversed) == Walk(a, b)
    && path + Cells(a[..i], b[..j]) == Cells(a, b)
  }

  lemma WalkStarts(a: seq<Token>, b: seq<Token>)
    ensures Walked(a, b, |a|, |b|, [], [])
  {
    assert a[..|a|] == a && b[..|b|] == b;
  }

  /** The step the walk takes at cell `(i, j)`. */
  function StepAt(a: seq<Token>, b: seq<Token>, i: nat, j: nat): Step
    requires i <= |a| && j <= |b| && i + j > 0
  {
    if i > 0 && j > 0 && a[i - 1] == b[j - 1] then Step(Equal, a[i - 1])
    else if i > 0 && (j == 0 || Lcs(a[..i - 1], b[..j]) > Lcs(a[..i], b[..j - 1])) then Step(Delete, a[i - 1])
    else Step(Insert, b[j - 1])
  }

  lemma StepAtIsLast(a: seq<Token>, b: seq<Token>, i: nat, j: nat)
    requires i <= |a| && j <= |b| && i + j > 0
    ensures LastStep(a[..i], b[..j]) == StepAt(a, b, i, j)
  {
    if i > 0 {
      PrefixEnds(a, i);
    }
    if j > 0 {
      PrefixEnds(b, j);
    }
  }

  lemma WalkFrom(a: seq<Token>, b: seq<Token>, i: nat, j: nat, reversed: Script, path: seq<Coord>)
    returns (s: Step, k: nat, l: nat)
    requires i <= |a| && j <= |b| && i + j > 0 && Walked(a, b, i, j, reversed, path)
    ensures s == StepAt(a, b, i, j)
    ensures k == (if s.kind != Insert then i - 1 else i) && l == (if s.kind != Delete then j - 1 else j)
    ensures k <= |a| && l <= |b| && Walked(a, b, k, l, reversed + [s], path + [Coord(i, j)])
  {
    StepAtIsLast(a, b, i, j);
    s := StepAt(a, b, i, j);
    k, l := if s.kind != Insert then i - 1 else i, if s.kind != Delete then j - 1 else j;
    WalkUnfolds(a, b, i, j);
    ReversedGrows(reversed, s);
    Regroup(Walk(a[..k], b[..l]), [s], Reversed(reversed));
    Regroup(path, [Coord(i, j)], Cells(a[..k], b[..l]));
  }

  lemma WalkUnfolds(a: seq<Token>, b: seq<Token>, i: nat, j: nat)
    requires i <= |a| && j <= |b| && i + j > 0
    ensures var s := StepAt(a, b, i, j);
      var k, l := if s.kind != Insert then i - 1 else i, if s.kind != Delete then j - 1 else j;
      Walk(a[..i], b[..j]) == Walk(a[..k], b[..l]) + [s] && Cells(a[..i], b[..j]) == [Coord(i, j)] + Cells(a[..k], b[..l])
  {
    StepAtIsLast(a, b, i, j);
    assert i > 0 ==> Init(a[..i]) == a[..i - 1];
    assert j > 0 ==> Init(b[..j]) == b[..j - 1];
  }

  // ----- What the script says

  /** The tokens of all steps but those of kind `dropped`. */
  function Without(s: Script, dropped: Kind): seq<Token> {
    if s == [] then []
    else Without(Init(s), dropped) + if Last(s).kind == dropped then [] else [Last(s).token]
  }

  /** The tokens kept from one list to the other. */
  function Matched(s: Script): seq<Token> {
    if s == [] then []
    else Matched(Init(s)) + if Last(s).kind == Equal then [Last(s).token] else []
  }

  lemma WalkEnds(a: seq<Token>, b: seq<Token>)
    requires a != [] || b != []
    ensures var s := LastStep(a, b);
      Walk(a, b) != [] && Last(Walk(a, b)) == s
      && Init(Walk(a, b)) == Walk(if s.kind != Insert then Init(a) else a, if s.kind != Delete then Init(b) else b)
  {
  }

  /** A step is the last token of each list it belongs to. */
  lemma StepEnds(a: seq<Token>, b: seq<Token>)
    requires a != [] || b != []
    ensures var s := LastStep(a, b);
      && (s.kind != Insert ==> a != [] && a == Init(a) + [s.token])
      && (s.kind != Delete ==> b != [] && b == Init(b) + [s.token])
  {
  }

  /** Dropping the insertions gives the old list, dropping the deletions the new one. */
  lemma {:induction false} ScriptProjects(a: seq<Token>, b: seq<Token>)
    ensures Without(Walk(a, b), Insert) == a && Without(Walk(a, b), Delete) == b
    decreases |a| + |b|
  {
    if a != [] || b != [] {
      StepEnds(a, b);
      WalkEnds(a, b);
      match LastStep(a, b).kind
      case Equal => ScriptProjects(Init(a), Init(b));
      case Delete => ScriptProjects(Init(a), b);
      case Insert => ScriptProjects(a, Init(b));
    }
  }

  lemma {:induction false} WalkLength(a: seq<Token>, b: seq<Token>)
    ensures |Matched(Walk(a, b))| == Lcs(a, b)
    decreases |a| + |b|
  {
    if a != [] || b != [] {
      WalkEnds(a, b);
      match LastStep(a, b).kind
      case Equal => WalkLength(Init(a), Init(b));
      case Delete => WalkLength(Init(a), b);
      case Insert => WalkLength(a, Init(b));
    }
  }

  /** Any script that turns `a` into `b` keeps a common subsequence. */
  lemma {:induction false} ScriptMatchesCommon(s: Script)
    ensures Common(Matched(s), Without(s, Insert), Without(s, Delete))
  {
    if s != [] {
      ScriptMatchesCommon(Init(s));
      assert forall c: seq<Token> :: c + [] == c;
      GrowBoth(Matched(Init(s)), Without(Init(s), Insert), Last(s).token);
      GrowBoth(Matched(Init(s)), Without(Init(s), Delete), Last(s).token);
    }
  }

  lemma WalkMatches(a: seq<Token>, b: seq<Token>)
    ensures Common(Matched(Walk(a, b)), a, b) && |Matched(Walk(a, b))| == Lcs(a, b)
  {
    ScriptProjects(a, b);
    ScriptMatchesCommon(Walk(a, b));
    WalkLength(a, b);
  }

  /** The kept tokens are a longest common subsequence: no smaller edit exists. */
  lemma ScriptKeepsMost(a: seq<Token>, b: seq<Token>)
    ensures IsLongestCommon(Matched(Walk(a, b)), a, b)
  {
    WalkMatches(a, b);
    forall d | Common(d, a, b) ensures |d| <= |Matched(Walk(a, b))| {
      LcsBounds(d, a, b);
    }
  }

  /** A deletion is never next after an insertion: the tie rule of the walk. */
  lemma {:induction false} NoDeleteAfterInsert(a: seq<Token>, b: seq<Token>, k: nat)
    requires k + 1 < |Walk(a, b)|
    ensures !(Walk(a, b)[k].kind == Insert && Walk(a, b)[k + 1].kind == Delete)
    decreases |a| + |b|
  {
    WalkEnds(a, b);
    var s := LastStep(a, b);
    var a', b' := if s.kind != Insert then Init(a) else a, if s.kind != Delete then Init(b) else b;
    assert Walk(a, b) == Walk(a', b') + [s];
    if k + 2 < |Walk(a, b)| {
      NoDeleteAfterInsert(a', b', k);
    } else if s.kind == Delete {
      WalkEnds(a', b');
      if b != [] {
        LcsGrows(a, Init(b));
      }
    }
  }

  /** Between an insertion and a later deletion something is kept: every run of
      changes has its deletions first. */
  lemma {:induction false} DeletionsComeFirst(a: seq<Token>, b: seq<Token>, p: nat, q: nat)
    requires p < q < |Walk(a, b)| && Walk(a, b)[p].kind == Insert && Walk(a, b)[q].kind == Delete
    ensures exists m :: p < m < q && Walk(a, b)[m].kind == Equal
    decreases q - p
  {
    NoDeleteAfterInsert(a, b, p);
    if Walk(a, b)[p + 1].kind == Insert {
      DeletionsComeFirst(a, b, p + 1, q);
    }
  }

  /** The two projections fix the script's size: one step per kept token and one per changed one. */
  lemma {:induction false} ScriptLength(s: Script)
    ensures |s| + |Matched(s)| == |Without(s, Insert)| + |Without(s, Delete)|
  {
    if s != [] {
      ScriptLength(Init(s));
    }
  }

  /** No script that turns `a` into `b` is shorter. */
  lemma ScriptIsShortest(a: seq<Token>, b: seq<Token>, s: Script)
    requires Without(s, Insert) == a && Without(s, Delete) == b
    ensures |Walk(a, b)| <= |s|
  {
    ScriptProjects(a, b);
    ScriptLength(Walk(a, b));
    ScriptLength(s);
    ScriptMatchesCommon(s);
    LcsBounds(Matched(s), a, b);
    WalkMatches(a, b);
  }

  /** The script: it turns `a` into `b`, keeps a longest common subsequence, and no
      script that turns `a` into `b` is shorter. */
  method Diff(a: seq<Token>, b: seq<Token>) returns (ops: Script)
    ensures Without(ops, Insert) == a && Without(ops, Delete) == b
    ensures IsLongestCommon(Matched(ops), a, b)
    ensures forall s :: Without(s, Insert) == a && Without(s, Delete) == b ==> |ops| <= |s|
  {
    var table := LcsTable(a, b);
    var path;
    ops, path := TracebackWithPath(table, a, b);
    ScriptProjects(a, b);
    ScriptKeepsMost(a, b);
    forall s | Without(s, Insert) == a && Without(s, Delete) == b ensures |ops| <= |s| {
      ScriptIsShortest(a, b, s);
    }
  }
}
