// What inline parsing keeps of UTF-8.

module InlineUtf8 {
  import opened Options
  import opened Sequences
  import opened Utf8
  import opened Inlines

  ghost predicate OnBoundaries(marks: seq<Mark>, text: Utf8.Text) {
    forall m :: m in marks ==> Boundary(text, m.start) && Boundary(text, m.end)
  }

  /** A marked body, and the line after it, are cut between characters. */
  ghost predicate KeepsCharacters(read: Reader) {
    forall s: Utf8.Text {:trigger read(s)} :: s != [] && Valid(s) && read(s).Marked? && read(s).Size() <= |s| ==>
      Valid(read(s).body) && Valid(s[read(s).Size()..])
  }

  // ----- Each kind of marker is cut between characters

  lemma DropDrop(s: Utf8.Text, i: nat, n: nat, rest: nat)
    requires rest == i + n <= |s|
    ensures s[i..][n..] == s[rest..]
  {
  }

  /** Up to the first `pat`, and after it. */
  lemma BodyKeeps(t: Utf8.Text, pat: Utf8.Text) returns (end: nat, skip: nat)
    requires Valid(t) && pat != [] && Index(t, pat).Some? && forall k :: 0 <= k < |pat| ==> pat[k] < 0x80
    ensures Index(t, pat) == Some(end) && skip == end + |pat| <= |t| && Valid(t[..end]) && Valid(t[skip..])
  {
    end := Index(t, pat).value;
    skip := end + |pat|;
    IndexFinds(t, pat);
    assert forall k :: 0 <= k < |pat| ==> t[end..][k] == pat[k];
    assert t[end] == t[end..][0];
    ValidCut(t, end);
    ValidSkip(t[end..], |pat|);
    DropDrop(t, end, |pat|, skip);
  }

  lemma BodyKeepsAt(s: Utf8.Text, n: nat, pat: Utf8.Text) returns (end: nat, rest: nat)
    requires n <= |s| && Valid(s[n..])
    requires pat != [] && Index(s[n..], pat).Some? && forall k :: 0 <= k < |pat| ==> pat[k] < 0x80
    ensures Index(s[n..], pat) == Some(end) && rest == n + end + |pat| <= |s|
    ensures Valid(s[n..][..end]) && Valid(s[rest..])
  {
    var skip;
    end, skip := BodyKeeps(s[n..], pat);
    rest := n + skip;
    DropDrop(s, n, skip, rest);
  }

  lemma PageLinkKeeps(s: Utf8.Text)
    requires Valid(s) && PageLinkAt(s).Some?
    ensures Valid(PageLinkAt(s).value.body) && Valid(s[PageLinkAt(s).value.Size()..])
  {
    ValidSkip(s, 2);
    var end, rest := BodyKeepsAt(s, 2, [CLOSE, CLOSE]);
    assert PageLinkAt(s).value.Size() == rest;
  }

  /** `[text]` and the byte after it, at the start of a line. */
  lemma BracketsKeep(s: Utf8.Text, n: nat, at: nat, behind: nat)
    requires Valid(s) && s != [] && s[0] == OPEN && Index(s, [CLOSE]) == Some(n)
    requires at == n + 1 && behind == at + 1 && at < |s| && s[at] == LEFT
    ensures 0 < n && Valid(s[..n][1..]) && Valid(s[behind..])
  {
    CloseIsBehind(s, n);
    var end, skip := BodyKeeps(s, [CLOSE]);
    assert end == n && skip == at;
    ValidSkip(s[..n], 1);
    SkipLeft(s, at, behind);
  }

  lemma CloseIsBehind(s: Utf8.Text, n: nat)
    requires s != [] && s[0] == OPEN && Index(s, [CLOSE]) == Some(n)
    ensures 0 < n < |s|
  {
    IndexFinds(s, [CLOSE]);
    assert s[n] == CLOSE;
  }

  lemma SkipLeft(s: Utf8.Text, i: nat, next: nat)
    requires i < |s| && Valid(s[i..]) && s[i] == LEFT && next == i + 1
    ensures Valid(s[next..])
  {
    assert s[i..][0] == LEFT;
    ValidSkip(s[i..], 1);
    DropDrop(s, i, 1, next);
  }

  lemma LinkParts(s: Utf8.Text) returns (n: nat, end: nat)
    requires s != [] && s[0] == OPEN && LinkAt(s).Some?
    ensures Index(s, [CLOSE]) == Some(n) && n + 1 < |s| && s[n + 1] == LEFT
    ensures Index(s[n + 2..], [RIGHT]) == Some(end)
    ensures 0 < n ==> LinkAt(s).value.body == s[..n][1..] && LinkAt(s).value.Size() == n + 2 + end + 1
  {
    n := Index(s, [CLOSE]).value;
    end := Index(s[n + 2..], [RIGHT]).value;
    assert LinkAt(s).value.close == [CLOSE, LEFT] + s[n + 2..][..end] + [RIGHT];
  }

  lemma LinkCuts(s: Utf8.Text, n: nat, end: nat) returns (rest: nat)
    requires Valid(s) && s != [] && s[0] == OPEN && Index(s, [CLOSE]) == Some(n) && n + 1 < |s| && s[n + 1] == LEFT
    requires Index(s[n + 2..], [RIGHT]) == Some(end)
    ensures 0 < n && Valid(s[..n][1..]) && rest == n + 2 + end + 1 <= |s| && Valid(s[rest..])
  {
    BracketsKeep(s, n, n + 1, n + 2);
    var e;
    e, rest := BodyKeepsAt(s, n + 2, [RIGHT]);
  }

  lemma LinkKeeps(s: Utf8.Text)
    requires Valid(s) && s != [] && s[0] == OPEN && LinkAt(s).Some?
    ensures Valid(LinkAt(s).value.body) && Valid(s[LinkAt(s).value.Size()..])
  {
    var n, end := LinkParts(s);
    var rest := LinkCuts(s, n, end);
    assert LinkAt(s).value.Size() == rest;
  }

  lemma PairKeeps(s: Utf8.Text, d: Delim)
    requires Valid(s) && d.mark != [] && (forall k :: 0 <= k < |d.mark| ==> d.mark[k] < 0x80) && PairAt(s, d).Some?
    ensures Valid(PairAt(s, d).value.body) && Valid(s[PairAt(s, d).value.Size()..])
  {
    var n := |d.mark|;
    assert forall k :: 0 <= k < n ==> s[k] == d.mark[k];
    ValidSkip(s, n);
    var end, rest := BodyKeepsAt(s, n, d.mark);
    assert PairAt(s, d).value.Size() == rest;
  }

  lemma {:induction false} PairFromIsPair(s: Utf8.Text, k: nat) returns (d: Delim)
    requires k <= |DELIMS| && PairFrom(s, k).Some?
    ensures d in DELIMS && d.mark != [] && PairAt(s, d) == PairFrom(s, k)
    decreases |DELIMS| - k
  {
    d := DELIMS[k];
    if PairAt(s, d).None? {
      d := PairFromIsPair(s, k + 1);
    }
  }

  lemma FirstKeeps()
    ensures KeepsCharacters(First)
  {
    forall s: Utf8.Text | s != [] && Valid(s) && First(s).Marked? && First(s).Size() <= |s|
      ensures Valid(First(s).body) && Valid(s[First(s).Size()..])
    {
      if PageLinkAt(s).Some? {
        PageLinkKeeps(s);
      } else if s[0] == OPEN && LinkAt(s).Some? {
        LinkKeeps(s);
      } else {
        var d := PairFromIsPair(s, 0);
        PairKeeps(s, d);
      }
    }
  }

  // ----- The whole line

  lemma LiteralStep(read: Reader, s: Utf8.Text, i: nat)
    requires Advances(read) && ReadsPrefix(read) && i < |s| && read(s[i..]).Literal?
    ensures read(s[i..]) == Literal(s[i]) && Pieces(read, s, i) == More(Literal(s[i]), Pieces(read, s, i + 1))
  {
  }

  /** Up to offset `j` nothing but literal bytes is read, when the first is one and the others are no markers. */
  lemma {:induction false} LiteralRun(read: Reader, s: Utf8.Text, i: nat, j: nat)
    requires Advances(read) && ReadsPrefix(read) && LeavesPlain(read) && i < j <= |s|
    requires read(s[i..]).Literal? && forall k :: i < k < j ==> !IsMarker(s[k])
    ensures Pieces(read, s, i) == Literals(s[i..j], Pieces(read, s, j))
    decreases j - i
  {
    LiteralStep(read, s, i);
    assert s[i..j][1..] == s[i + 1..j];
    if i + 1 < j {
      assert s[i + 1..][0] == s[i + 1];
      LiteralRun(read, s, i + 1, j);
    }
  }

  lemma {:induction false} LineKeeps(read: Reader, s: Utf8.Text, i: nat, before: Utf8.Text)
    requires Advances(read) && ReadsPrefix(read) && LeavesPlain(read) && KeepsCharacters(read)
    requires i <= |s| && Valid(s[i..]) && Valid(before)
    ensures LineKept(Pieces(read, s, i), before)
    decreases |s| - i
  {
    if i == |s| {
      assert before + [] == before;
    } else if read(s[i..]).Marked? {
      var p, j := read(s[i..]), Next(read, s, i);
      MarkedKeeps(read, s, i, before);
      LineKeeps(read, s, j, before + p.body);
      MarkOnBoundaries(p, before, Pieces(read, s, j));
    } else {
      var j := CharacterKept(read, s, i, before);
      LineKeeps(read, s, j, before + s[i..j]);
    }
  }

  /** With `before` in front, the text is valid and the marks are between characters. */
  ghost predicate LineKept(ps: Line, before: Utf8.Text) {
    Valid(before + TextOf(ps)) && OnBoundaries(MarksFrom(ps, |before|), before + TextOf(ps))
  }

  lemma MarkedKeeps(read: Reader, s: Utf8.Text, i: nat, before: Utf8.Text)
    requires Advances(read) && KeepsCharacters(read)
    requires i < |s| && Valid(s[i..]) && Valid(before) && read(s[i..]).Marked?
    ensures Valid(before + read(s[i..]).body) && Valid(s[Next(read, s, i)..])
  {
    var p := read(s[i..]);
    assert s[i..][p.Size()..] == s[i + p.Size()..];
    ValidJoin(before, p.body);
  }

  lemma LiteralsKept(x: Utf8.Text, later: Line, before: Utf8.Text)
    requires LineKept(later, before + x)
    ensures LineKept(Literals(x, later), before)
  {
    LiteralsAreText(x, later, |before|);
    LiteralsBehind(x, later, before, Literals(x, later));
    SameLineKept(Literals(x, later), before, later, before + x, |before|, |before| + |x|);
  }

  lemma LiteralsBehind(x: Utf8.Text, later: Line, before: Utf8.Text, line: Line)
    requires TextOf(line) == x + TextOf(later)
    ensures before + TextOf(line) == before + x + TextOf(later)
  {
    Regroup(before, x, TextOf(later));
  }

  /** Lines with the same text behind them and the same marks. */
  lemma SameLineKept(a: Line, x: Utf8.Text, b: Line, y: Utf8.Text, n: nat, m: nat)
    requires LineKept(b, y) && x + TextOf(a) == y + TextOf(b)
    requires n == |x| && m == |y| && MarksFrom(a, n) == MarksFrom(b, m)
    ensures LineKept(a, x)
  {
  }

  lemma CharacterKept(read: Reader, s: Utf8.Text, i: nat, before: Utf8.Text) returns (j: nat)
    requires Advances(read) && ReadsPrefix(read) && LeavesPlain(read)
    requires i < |s| && Valid(s[i..]) && Valid(before) && read(s[i..]).Literal?
    ensures i < j <= |s| && Valid(s[j..]) && Valid(before + s[i..j])
    ensures LineKept(Pieces(read, s, j), before + s[i..j]) ==> LineKept(Pieces(read, s, i), before)
  {
    j := CharacterPlain(s, i);
    LiteralRun(read, s, i, j);
    if LineKept(Pieces(read, s, j), before + s[i..j]) {
      LiteralsKept(s[i..j], Pieces(read, s, j), before);
    }
    ValidJoin(before, s[i..j]);
  }

  /** The bytes of a character after its first are no markers. */
  lemma CharacterPlain(s: Utf8.Text, i: nat) returns (j: nat)
    requires i < |s| && Valid(s[i..])
    ensures i < j <= |s| && Valid(s[i..j]) && Valid(s[j..])
    ensures forall k :: i < k < j ==> !IsMarker(s[k])
  {
    var t := s[i..];
    var n := CharLength(t);
    j := i + n;
    forall k | i < k < j ensures !IsMarker(s[k]) {
      LongCharacters(t, k - i);
      assert t[k - i] == s[k];
    }
    LengthIsLocal(t, t[..n]);
    assert t[..n][n..] == [];
    assert t[..n] == s[i..j] && t[n..] == s[j..];
  }

  lemma MarkOnBoundaries(p: Piece, before: Utf8.Text, later: Line)
    requires p.Marked? && Valid(before) && Valid(before + p.body) && LineKept(later, before + p.body)
    ensures LineKept(More(p, later), before)
  {
    var text := before + p.body + TextOf(later);
    Regroup(before, p.body, TextOf(later));
    OneMark(p, before, |before + p.body|, text);
    MarkedMeans(p, later, |before|, |before + p.body|);
    BoundariesJoin(MarkOf(p, |before|), MarksFrom(later, |before + p.body|), text);
  }

  lemma OneMark(p: Piece, before: Utf8.Text, end: nat, text: Utf8.Text)
    requires p.Marked? && Valid(before) && Valid(before + p.body) && end == |before + p.body| && before + p.body <= text
    ensures OnBoundaries(MarkOf(p, |before|), text)
  {
    assert text[..|before|] == before && text[..end] == before + p.body;
  }

  lemma MarkedMeans(p: Piece, later: Line, at: nat, end: nat)
    requires p.Marked? && end == at + |p.body|
    ensures TextOf(More(p, later)) == p.body + TextOf(later)
    ensures MarksFrom(More(p, later), at) == MarkOf(p, at) + MarksFrom(later, end)
  {
  }

  lemma BoundariesJoin(a: seq<Mark>, b: seq<Mark>, text: Utf8.Text)
    requires OnBoundaries(a, text) && OnBoundaries(b, text)
    ensures OnBoundaries(a + b, text)
  {
  }

  /** On valid UTF-8 the text is valid, and every mark starts and ends between characters. */
  lemma CharactersAreKept(s: Utf8.Text)
    requires Valid(s)
    ensures Valid(Parsed(s).text) && OnBoundaries(Parsed(s).marks, Parsed(s).text)
  {
    FirstReadsPrefix();
    FirstLeavesPlain();
    FirstKeeps();
    assert s[0..] == s;
    LineKeeps(First, s, 0, []);
    assert [] + TextOf(PiecesOf(s)) == TextOf(PiecesOf(s));
  }
}
