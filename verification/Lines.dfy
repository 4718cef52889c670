// What a line of the paste looks like.

module Lines {
  // The line classes of the paste compiler's lexer, over bytes, and lines written
  // out and read back.

  import opened Options
  import opened Sequences
  import opened Trims
  import opened Lexers

  const SPACE: Byte := 32
  const TAB: Byte := 9
  const HASH: Byte := 35
  const DASH: Byte := 45
  const STAR: Byte := 42
  const PLUS: Byte := 43
  const UNDERSCORE: Byte := 95
  const GREATER: Byte := 62
  const TICK: Byte := 96
  const TILDE: Byte := 126
  const DOT: Byte := 46
  const CLOSE: Byte := 41
  const LEFT: Byte := 91
  const RIGHT: Byte := 93
  const SMALL_X: Byte := 120
  const LARGE_X: Byte := 88

  const MAX_HEADING_LEVEL: nat := 3
  const INDENT_WIDTH: nat := 2

  type Bytes = Lexers.Text

  // ----- The classes

  predicate IsHash(b: Byte) { b == HASH }

  predicate IsDigit(b: Byte) { 48 <= b <= 57 }

  predicate IsFenceByte(b: Byte) { b == TICK || b == TILDE }

  /** How many leading bytes are in the class. */
  function Leading(s: Bytes, inClass: Byte -> bool): (n: nat)
    ensures n <= |s|
  {
    if s == [] || !inClass(s[0]) then 0 else 1 + Leading(s[1..], inClass)
  }

  predicate IsFence(s: Bytes) {
    |s| >= 3 && IsFenceByte(s[0]) && s[1] == s[0] && s[2] == s[0]
  }

  /** The info string of a fence line. */
  function FenceInfo(body: Bytes): Option<Bytes> {
    var t := Trim(body);
    if IsFence(t) then Some(Trim(t[Leading(t, IsFenceByte)..])) else None
  }

  predicate IsDivider(s: Bytes) {
    |s| >= 3 && (s[0] == DASH || s[0] == STAR || s[0] == UNDERSCORE) && forall i :: 0 <= i < |s| ==> s[i] == s[0]
  }

  function AtxHeading(s: Bytes): Option<Line> {
    var n := Leading(s, IsHash);
    if n == 0 || n > MAX_HEADING_LEVEL || n >= |s| || s[n] != SPACE then None
    else Some(Heading(n, Trim(s[n + 1..])))
  }

  function BulletText(s: Bytes): Option<Bytes> {
    if |s| > 1 && (s[0] == DASH || s[0] == STAR || s[0] == PLUS) && s[1] == SPACE then Some(Trim(s[2..])) else None
  }

  function OrderedText(s: Bytes): Option<Bytes> {
    var i := Leading(s, IsDigit);
    if i == 0 || i + 1 >= |s| then None
    else if (s[i] == DOT || s[i] == CLOSE) && s[i + 1] == SPACE then Some(Trim(s[i + 2..]))
    else None
  }

  /** The box of a task, with the text after it. */
  function TaskBox(rest: Bytes): Option<(bool, Bytes)> {
    if |rest| < 4 || rest[0] != LEFT || rest[2] != RIGHT || rest[3] != SPACE then None
    else if rest[1] == SPACE then Some((false, Trim(rest[4..])))
    else if rest[1] == SMALL_X || rest[1] == LARGE_X then Some((true, Trim(rest[4..])))
    else None
  }

  /** Columns of leading white space, a tab counting for two. */
  function LeadingWidth(s: Bytes): nat {
    if s == [] then 0
    else if s[0] == SPACE then 1 + LeadingWidth(s[1..])
    else if s[0] == TAB then INDENT_WIDTH + LeadingWidth(s[1..])
    else 0
  }

  function ItemOf(t: Bytes, indent: nat): Line {
    match BulletText(t)
    case Some(text) =>
      (match TaskBox(text)
       case Some(box) => Task(indent, box.0, box.1)
       case None => Item(false, indent, text))
    case None =>
      match OrderedText(t)
      case Some(text) => Item(true, indent, text)
      case None => Prose(t)
  }

  /** The class of a line outside a fence. */
  function Classify(body: Bytes): Line {
    var t := Trim(body);
    if t == [] then BlankLine
    else if IsDivider(t) then Rule
    else if AtxHeading(t).Some? then AtxHeading(t).value
    else if t[0] == GREATER && |t| == 1 then Quoted([])
    else if t[0] == GREATER && t[1] == SPACE then Quoted(t[2..])
    else ItemOf(t, LeadingWidth(body) / INDENT_WIDTH)
  }

  function Markdown(): Grammar {
    Grammar(FenceInfo, Classify)
  }

  // ----- The loops

  method CountLeading(s: Bytes, inClass: Byte -> bool) returns (n: nat)
    ensures n == Leading(s, inClass)
  {
    n := 0;
    while n < |s| && inClass(s[n])
      invariant n <= |s| && Leading(s, inClass) == n + Leading(s[n..], inClass)
    {
      assert s[n..][1..] == s[n + 1..];
      n := n + 1;
    }
  }

  method LeadingIndent(line: Bytes) returns (indent: nat)
    ensures indent == LeadingWidth(line) / INDENT_WIDTH
  {
    var spaces, i := 0, 0;
    while i < |line|
      invariant 0 <= i <= |line| && LeadingWidth(line) == spaces + LeadingWidth(line[i..])
    {
      assert line[i..][1..] == line[i + 1..];
      if line[i] == SPACE {
        spaces := spaces + 1;
      } else if line[i] == TAB {
        spaces := spaces + INDENT_WIDTH;
      } else {
        return spaces / INDENT_WIDTH;
      }
      i := i + 1;
    }
    return spaces / INDENT_WIDTH;
  }

  // ----- Text kept by trimming

  /** Not empty, and without white space at either end. */
  predicate Solid(s: Bytes) {
    s != [] && SpaceAhead(s) == 0 && SpaceBehind(s) == 0
  }

  lemma SolidStays(s: Bytes)
    requires SpaceAhead(s) == 0 && SpaceBehind(s) == 0
    ensures Trim(s) == s
  {
  }

  function Repeated(b: Byte, n: nat): Bytes {
    if n == 0 then [] else [b] + Repeated(b, n - 1)
  }

  lemma SpaceGoes(t: Bytes)
    ensures TrimLeft([SPACE] + t) == TrimLeft(t)
  {
    var s := [SPACE] + t;
    assert s[..1] == [SPACE] && IsSpace([SPACE]);
    assert SpaceAhead(s) == 1 && s[1..] == t;
  }

  lemma {:induction false} SpacesGo(n: nat, t: Bytes)
    ensures TrimLeft(Repeated(SPACE, n) + t) == TrimLeft(t)
  {
    if n > 0 {
      SpacesGo(n - 1, t);
      SpaceGoes(Repeated(SPACE, n - 1) + t);
      assert Repeated(SPACE, n) + t == [SPACE] + (Repeated(SPACE, n - 1) + t);
    } else {
      assert Repeated(SPACE, 0) + t == t;
    }
  }

  /** Plain bytes in front, the first of them no white space, and nothing to trim behind. */
  lemma MarkedIsSolid(marker: Bytes, text: Bytes)
    requires marker != [] && marker[0] > SPACE && forall i :: 0 <= i < |marker| ==> marker[i] < 0x80
    requires text != [] && SpaceBehind(text) == 0
    ensures Solid(marker + text)
  {
    var s, m, n := marker + text, |marker|, |text|;
    assert s[0] == marker[0] && s[m + n - 1] == text[n - 1];
    assert n >= 2 ==> s[m + n - 2] == text[n - 2];
    assert n >= 3 ==> s[m + n - 3] == text[n - 3];
    assert n == 1 ==> s[m + n - 2] == marker[m - 1];
    assert n <= 2 && m + n >= 3 ==> s[m + n - 3] == marker[m + n - 3];
  }

  lemma {:induction false} WidthOfSpaces(n: nat, t: Bytes)
    requires t != [] && t[0] > SPACE
    ensures LeadingWidth(Repeated(SPACE, n) + t) == n
  {
    if n > 0 {
      WidthOfSpaces(n - 1, t);
      var s := Repeated(SPACE, n) + t;
      assert s == [SPACE] + (Repeated(SPACE, n - 1) + t);
      assert s[1..] == Repeated(SPACE, n - 1) + t;
    } else {
      assert Repeated(SPACE, 0) + t == t;
    }
  }

  // ----- Lines written out and read back

  function Written(l: Line): Bytes {
    match l
    case BlankLine => []
    case Rule => [DASH, DASH, DASH]
    case Heading(level, text) => Repeated(HASH, level) + [SPACE] + text
    case Quoted(text) => if text == [] then [GREATER] else [GREATER, SPACE] + text
    case Item(ordered, indent, text) => Repeated(SPACE, INDENT_WIDTH * indent) + ItemMarker(ordered) + text
    case Task(indent, checked, text) => Repeated(SPACE, INDENT_WIDTH * indent) + TaskMarker(checked) + text
    case Prose(text) => text
  }

  function ItemMarker(ordered: bool): Bytes {
    if ordered then [49, DOT, SPACE] else [DASH, SPACE]
  }

  function TaskMarker(checked: bool): Bytes {
    [DASH, SPACE] + Box(checked)
  }

  function Box(checked: bool): Bytes {
    [LEFT, if checked then SMALL_X else SPACE, RIGHT, SPACE]
  }

  /** A line a writer would make: texts without white space around them, and a plain
      text not starting with what starts another class. */
  predicate Writable(l: Line) {
    match l
    case BlankLine => true
    case Rule => true
    case Heading(level, text) => 1 <= level <= MAX_HEADING_LEVEL && Solid(text)
    case Quoted(text) => text == [] || SpaceBehind(text) == 0
    case Item(ordered, _, text) => Solid(text) && (ordered || TaskBox(text).None?)
    case Task(_, _, text) => Solid(text)
    case Prose(text) => Solid(text) && !StartsMarked(text)
  }

  predicate StartsMarked(s: Bytes)
    requires s != []
  {
    || s[0] == HASH || s[0] == GREATER || s[0] == DASH || s[0] == STAR || s[0] == PLUS || s[0] == UNDERSCORE
    || IsFenceByte(s[0]) || IsDigit(s[0])
  }

  lemma {:induction false} LeadingRun(b: Byte, n: nat, t: Bytes, inClass: Byte -> bool)
    requires inClass(b) && (t == [] || !inClass(t[0]))
    ensures Leading(Repeated(b, n) + t, inClass) == n
  {
    var s := Repeated(b, n) + t;
    if n > 0 {
      LeadingRun(b, n - 1, t, inClass);
      assert s == [b] + (Repeated(b, n - 1) + t);
      assert s[1..] == Repeated(b, n - 1) + t;
    } else {
      assert s == t;
    }
  }

  /** The first byte rules classes out. */
  lemma FirstByteDecides(s: Bytes)
    requires s != []
    ensures !IsFenceByte(s[0]) ==> !IsFence(s)
    ensures s[0] != HASH ==> AtxHeading(s).None?
    ensures !IsDigit(s[0]) ==> OrderedText(s).None?
    ensures s[0] != DASH && s[0] != STAR && s[0] != PLUS ==> BulletText(s).None?
    ensures s[0] != DASH && s[0] != STAR && s[0] != UNDERSCORE ==> !IsDivider(s)
  {
  }

  lemma MixedIsNoDivider(s: Bytes)
    requires |s| >= 2 && s[1] != s[0]
    ensures !IsDivider(s)
  {
  }

  lemma Joint(a: Bytes, b: Byte, c: Bytes, n: nat)
    requires n == |a|
    ensures var s := a + [b] + c; |s| > n && s[n] == b && s[n + 1..] == c && s == a + ([b] + c)
  {
  }

  lemma HashesRead(level: nat, text: Bytes)
    requires 1 <= level <= MAX_HEADING_LEVEL && Solid(text)
    ensures AtxHeading(Repeated(HASH, level) + [SPACE] + text) == Some(Heading(level, text))
  {
    var hashes := Repeated(HASH, level);
    RepeatedLength(HASH, level);
    Joint(hashes, SPACE, text, level);
    LeadingRun(HASH, level, [SPACE] + text, IsHash);
    SolidStays(text);
  }

  lemma {:induction false} RepeatedLength(b: Byte, n: nat)
    ensures |Repeated(b, n)| == n && forall i :: 0 <= i < n ==> Repeated(b, n)[i] == b
  {
    if n > 0 {
      RepeatedLength(b, n - 1);
    }
  }

  lemma HeadingReadsBack(level: nat, text: Bytes)
    requires 1 <= level <= MAX_HEADING_LEVEL && Solid(text)
    ensures Classify(Written(Heading(level, text))) == Heading(level, text)
    ensures FenceInfo(Written(Heading(level, text))).None?
  {
    var s := Repeated(HASH, level) + [SPACE] + text;
    RepeatedLength(HASH, level);
    MarkedIsSolid(Repeated(HASH, level) + [SPACE], text);
    SolidStays(s);
    assert s[0] == HASH;
    FirstByteDecides(s);
    HashesRead(level, text);
  }

  lemma QuoteReadsBack(text: Bytes)
    requires text == [] || SpaceBehind(text) == 0
    ensures Classify(Written(Quoted(text))) == Quoted(text) && FenceInfo(Written(Quoted(text))).None?
  {
    var s := Written(Quoted(text));
    if text == [] {
      SolidStays(s);
    } else {
      MarkedIsSolid([GREATER, SPACE], text);
      SolidStays(s);
      assert s[2..] == text;
    }
    assert s[0] == GREATER;
    assert Leading(s, IsHash) == 0;
  }

  lemma ProseReadsBack(text: Bytes)
    requires Solid(text) && !StartsMarked(text)
    ensures Classify(text) == Prose(text) && FenceInfo(text).None?
  {
    SolidStays(text);
    FirstByteDecides(text);
  }

  /** An indented marked line: the indent is trimmed away and counted. */
  lemma Indented(indent: nat, marked: Bytes)
    requires Solid(marked) && marked[0] > SPACE
    ensures var body := Repeated(SPACE, INDENT_WIDTH * indent) + marked;
      Trim(body) == marked && LeadingWidth(body) / INDENT_WIDTH == indent
  {
    SpacesGo(INDENT_WIDTH * indent, marked);
    SolidStays(marked);
    WidthOfSpaces(INDENT_WIDTH * indent, marked);
  }

  /** Nothing but an item can start like this. */
  predicate OnlyItem(s: Bytes) {
    s != [] && !IsDivider(s) && !IsFence(s) && AtxHeading(s).None? && s[0] != GREATER
  }

  lemma BulletReadsBack(text: Bytes)
    requires Solid(text)
    ensures var s := [DASH, SPACE] + text; Solid(s) && BulletText(s) == Some(text) && OnlyItem(s)
  {
    var s := [DASH, SPACE] + text;
    MarkedIsSolid([DASH, SPACE], text);
    SolidStays(text);
    Behind([DASH, SPACE], text);
    assert s[0] == DASH && s[1] == SPACE;
    FirstByteDecides(s);
    MixedIsNoDivider(s);
  }

  lemma NumberRead(text: Bytes)
    requires Solid(text)
    ensures OrderedText([49, DOT, SPACE] + text) == Some(text)
  {
    var s := [49, DOT, SPACE] + text;
    SolidStays(text);
    Behind([49, DOT, SPACE], text);
    assert s[1..][0] == DOT;
    assert Leading(s, IsDigit) == 1 + Leading(s[1..], IsDigit) == 1;
  }

  lemma OrderedReadsBack(text: Bytes)
    requires Solid(text)
    ensures var s := [49, DOT, SPACE] + text; Solid(s) && OrderedText(s) == Some(text) && BulletText(s).None? && OnlyItem(s)
  {
    var s := [49, DOT, SPACE] + text;
    MarkedIsSolid([49, DOT, SPACE], text);
    NumberRead(text);
    assert s[0] == 49;
    FirstByteDecides(s);
  }

  lemma ItemReadsBack(ordered: bool, indent: nat, text: Bytes)
    requires Solid(text) && (ordered || TaskBox(text).None?)
    ensures var l := Item(ordered, indent, text); Classify(Written(l)) == l && FenceInfo(Written(l)).None?
  {
    var marked := ItemMarker(ordered) + text;
    if ordered {
      OrderedReadsBack(text);
    } else {
      BulletReadsBack(text);
    }
    Indented(indent, marked);
    Regroup(Repeated(SPACE, INDENT_WIDTH * indent), ItemMarker(ordered), text);
  }

  lemma BoxReadsBack(checked: bool, text: Bytes)
    requires Solid(text)
    ensures Solid(Box(checked) + text) && TaskBox(Box(checked) + text) == Some((checked, text))
  {
    var s := Box(checked) + text;
    MarkedIsSolid(Box(checked), text);
    SolidStays(text);
    assert s[0] == LEFT && s[1] == (if checked then SMALL_X else SPACE) && s[2] == RIGHT && s[3] == SPACE && s[4..] == text;
  }

  lemma TaskReadsBack(indent: nat, checked: bool, text: Bytes)
    requires Solid(text)
    ensures var l := Task(indent, checked, text); Classify(Written(l)) == l && FenceInfo(Written(l)).None?
  {
    var boxed := Box(checked) + text;
    BoxReadsBack(checked, text);
    BulletReadsBack(boxed);
    Indented(indent, [DASH, SPACE] + boxed);
    Regroup([DASH, SPACE], Box(checked), text);
    Regroup(Repeated(SPACE, INDENT_WIDTH * indent), TaskMarker(checked), text);
  }

  /** A line written out is classified as what it was written for, and never opens a fence. */
  lemma WrittenLineReadsBack(l: Line)
    requires Writable(l)
    ensures Markdown().classify(Written(l)) == l && Markdown().fence(Written(l)).None?
  {
    match l
    case BlankLine =>
    case Rule =>
      MarkedIsSolid([DASH, DASH], [DASH]);
      assert [DASH, DASH] + [DASH] == Written(l);
      SolidStays(Written(l));
    case Heading(level, text) => HeadingReadsBack(level, text);
    case Quoted(text) => QuoteReadsBack(text);
    case Item(ordered, indent, text) => ItemReadsBack(ordered, indent, text);
    case Task(indent, checked, text) => TaskReadsBack(indent, checked, text);
    case Prose(text) => ProseReadsBack(text);
  }
}
