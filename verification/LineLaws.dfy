// What a line is classified as.

module LineLaws {
  // Every class by the bytes a line starts with, and the fields it then has.

  import opened Options
  import opened Trims
  import opened Lexers
  import Lines

  predicate StartsWith(s: Text, x: string)
    requires forall k :: 0 <= k < |x| ==> x[k] < 128 as char
  {
    Ascii(x) <= s
  }

  // ----- The classes, of a line without white space around it

  /** Three or more of one of `-`, `*` and `_`, and nothing else. */
  predicate RuleIs(t: Text) {
    |t| >= 3 && (StartsWith(t, "-") || StartsWith(t, "*") || StartsWith(t, "_")) && forall i :: 0 <= i < |t| ==> t[i] == t[0]
  }

  /** One to three hashes and a space. */
  predicate HeadingIs(t: Text, level: nat, text: Text) {
    && 1 <= level <= 3 && level < |t| && (forall i :: 0 <= i < level ==> t[i] == '#' as int as Byte)
    && StartsWith(t[level..], " ") && text == Trim(t[level + 1..])
  }

  predicate QuoteIs(t: Text, text: Text) {
    (t == Ascii(">") && text == []) || (StartsWith(t, "> ") && text == t[2..])
  }

  predicate IsBulleted(t: Text) {
    StartsWith(t, "- ") || StartsWith(t, "* ") || StartsWith(t, "+ ")
  }

  /** What stands behind a bullet. */
  predicate BehindBullet(t: Text, rest: Text) {
    IsBulleted(t) && rest == Trim(t[2..])
  }

  predicate BoxIs(rest: Text, checked: bool) {
    if checked then StartsWith(rest, "[x] ") || StartsWith(rest, "[X] ") else StartsWith(rest, "[ ] ")
  }

  predicate TaskIs(t: Text, checked: bool, text: Text) {
    IsBulleted(t) && var rest := Trim(t[2..]); BoxIs(rest, checked) && text == Trim(rest[4..])
  }

  predicate IsDigitByte(b: Byte) {
    '0' as int <= b as int <= '9' as int
  }

  /** Digits, a full stop or a closing bracket, and a space. */
  ghost predicate NumberIs(t: Text, text: Text) {
    exists n: nat :: NumberUpTo(t, n, text)
  }

  predicate NumberUpTo(t: Text, n: nat, text: Text) {
    && 0 < n && n + 2 <= |t| && (forall i :: 0 <= i < n ==> IsDigitByte(t[i]))
    && (StartsWith(t[n..], ". ") || StartsWith(t[n..], ") ")) && text == Trim(t[n + 2..])
  }

  ghost predicate ItemIs(t: Text, ordered: bool, text: Text) {
    if ordered then NumberIs(t, text)
    else BehindBullet(t, text) && !BoxIs(text, true) && !BoxIs(text, false)
  }

  /** Two columns of leading spaces and tabs a level, a tab counting for two. */
  ghost predicate IndentIs(body: Text, indent: nat) {
    exists k: nat :: BlankUpTo(body, k) && indent == (k + multiset(body[..k])['\t' as int as Byte]) / 2
  }

  predicate BlankUpTo(body: Text, k: nat) {
    && k <= |body| && (forall i :: 0 <= i < k ==> body[i] == ' ' as int as Byte || body[i] == '\t' as int as Byte)
    && (k < |body| ==> body[k] != ' ' as int as Byte && body[k] != '\t' as int as Byte)
  }

  ghost predicate IsOther(t: Text) {
    && t != [] && !RuleIs(t) && (forall n, x :: !HeadingIs(t, n, x)) && (forall x :: !QuoteIs(t, x))
    && !IsBulleted(t) && (forall x :: !NumberIs(t, x))
  }

  /** `l` is what `body`, a line outside a fence, stands for. */
  ghost predicate LineIs(body: Text, l: Line) {
    var t := Trim(body);
    match l
    case BlankLine => t == []
    case Rule => RuleIs(t)
    case Heading(level, text) => HeadingIs(t, level, text)
    case Quoted(text) => QuoteIs(t, text)
    case Item(ordered, indent, text) => ItemIs(t, ordered, text) && IndentIs(body, indent)
    case Task(indent, checked, text) => TaskIs(t, checked, text) && IndentIs(body, indent)
    case Prose(text) => IsOther(t) && text == t
  }

  // ----- The classifier agrees

  lemma MarkersAsBytes()
    ensures Ascii("-") == [Lines.DASH] && Ascii("*") == [Lines.STAR] && Ascii("_") == [Lines.UNDERSCORE]
    ensures Ascii(" ") == [Lines.SPACE] && Ascii(">") == [Lines.GREATER] && Ascii("> ") == [Lines.GREATER, Lines.SPACE]
    ensures Ascii("- ") == [Lines.DASH, Lines.SPACE] && Ascii("* ") == [Lines.STAR, Lines.SPACE]
    ensures Ascii("+ ") == [Lines.PLUS, Lines.SPACE]
    ensures Ascii(". ") == [Lines.DOT, Lines.SPACE] && Ascii(") ") == [Lines.CLOSE, Lines.SPACE]
    ensures Ascii("[ ] ") == [Lines.LEFT, Lines.SPACE, Lines.RIGHT, Lines.SPACE]
    ensures Ascii("[x] ") == [Lines.LEFT, Lines.SMALL_X, Lines.RIGHT, Lines.SPACE]
    ensures Ascii("[X] ") == [Lines.LEFT, Lines.LARGE_X, Lines.RIGHT, Lines.SPACE]
  {
  }

  lemma StartsOne(s: Text, b: Byte)
    ensures [b] <= s <==> s != [] && s[0] == b
  {
  }

  lemma StartsTwo(s: Text, b: Byte, c: Byte)
    ensures [b, c] <= s <==> |s| >= 2 && s[0] == b && s[1] == c
  {
  }

  lemma StartsFour(s: Text, a: Byte, b: Byte, c: Byte, d: Byte)
    ensures [a, b, c, d] <= s <==> |s| >= 4 && s[0] == a && s[1] == b && s[2] == c && s[3] == d
  {
  }

  lemma {:induction false} LeadingExactly(s: Text, inClass: Byte -> bool, n: nat)
    ensures n == Lines.Leading(s, inClass) <==>
      n <= |s| && (forall i :: 0 <= i < n ==> inClass(s[i])) && (n < |s| ==> !inClass(s[n]))
  {
    if s != [] && inClass(s[0]) && n > 0 {
      LeadingExactly(s[1..], inClass, n - 1);
      assert forall i :: 1 <= i < |s| ==> s[i] == s[1..][i - 1];
    }
  }

  lemma RuleExactly(t: Text)
    ensures RuleIs(t) <==> Lines.IsDivider(t)
  {
    MarkersAsBytes();
    StartsOne(t, Lines.DASH);
    StartsOne(t, Lines.STAR);
    StartsOne(t, Lines.UNDERSCORE);
  }

  lemma HeadingExactly(t: Text, level: nat, text: Text)
    ensures HeadingIs(t, level, text) <==> Lines.AtxHeading(t) == Some(Heading(level, text))
  {
    MarkersAsBytes();
    LeadingExactly(t, Lines.IsHash, level);
    if level < |t| {
      StartsOne(t[level..], Lines.SPACE);
    }
  }

  lemma QuoteExactly(t: Text, text: Text)
    requires t != []
    ensures QuoteIs(t, text) <==>
      t[0] == Lines.GREATER && (if |t| == 1 then text == [] else t[1] == Lines.SPACE && text == t[2..])
  {
    MarkersAsBytes();
    StartsTwo(t, Lines.GREATER, Lines.SPACE);
    assert t == [Lines.GREATER] <==> |t| == 1 && t[0] == Lines.GREATER;
  }

  lemma BulletExactly(t: Text, rest: Text)
    ensures BehindBullet(t, rest) <==> Lines.BulletText(t) == Some(rest)
    ensures IsBulleted(t) <==> Lines.BulletText(t).Some?
  {
    MarkersAsBytes();
    StartsTwo(t, Lines.DASH, Lines.SPACE);
    StartsTwo(t, Lines.STAR, Lines.SPACE);
    StartsTwo(t, Lines.PLUS, Lines.SPACE);
  }

  lemma BoxExactly(rest: Text, checked: bool)
    ensures BoxIs(rest, checked) <==> Lines.TaskBox(rest).Some? && Lines.TaskBox(rest).value.0 == checked
    ensures BoxIs(rest, checked) ==> |rest| >= 4 && Lines.TaskBox(rest) == Some((checked, Trim(rest[4..])))
  {
    MarkersAsBytes();
    StartsFour(rest, Lines.LEFT, Lines.SPACE, Lines.RIGHT, Lines.SPACE);
    StartsFour(rest, Lines.LEFT, Lines.SMALL_X, Lines.RIGHT, Lines.SPACE);
    StartsFour(rest, Lines.LEFT, Lines.LARGE_X, Lines.RIGHT, Lines.SPACE);
  }

  lemma NumberExactly(t: Text, text: Text)
    ensures NumberIs(t, text) <==> Lines.OrderedText(t) == Some(text)
  {
    MarkersAsBytes();
    var n := Lines.Leading(t, Lines.IsDigit);
    LeadingExactly(t, Lines.IsDigit, n);
    if n + 2 <= |t| {
      StartsTwo(t[n..], Lines.DOT, Lines.SPACE);
      StartsTwo(t[n..], Lines.CLOSE, Lines.SPACE);
    }
    forall k: nat | NumberUpTo(t, k, text) ensures k == n {
      StartsTwo(t[k..], Lines.DOT, Lines.SPACE);
      StartsTwo(t[k..], Lines.CLOSE, Lines.SPACE);
      LeadingExactly(t, Lines.IsDigit, k);
    }
    if Lines.OrderedText(t) == Some(text) {
      assert NumberUpTo(t, n, text);
    }
  }

  lemma {:induction false} WidthUpTo(body: Text, k: nat)
    requires BlankUpTo(body, k)
    ensures Lines.LeadingWidth(body) == k + multiset(body[..k])[Lines.TAB]
  {
    if k > 0 {
      var rest := body[1..];
      assert forall i :: 0 <= i < |rest| ==> rest[i] == body[i + 1];
      WidthUpTo(rest, k - 1);
      assert body[..k] == [body[0]] + rest[..k - 1];
    }
  }

  lemma {:induction false} BlankEnds(body: Text) returns (k: nat)
    ensures BlankUpTo(body, k)
  {
    k := 0;
    if body != [] && (body[0] == Lines.SPACE || body[0] == Lines.TAB) {
      k := BlankEnds(body[1..]);
      assert forall i :: 0 <= i < |body[1..]| ==> body[1..][i] == body[i + 1];
      k := k + 1;
    }
  }

  lemma IndentExactly(body: Text, indent: nat)
    ensures IndentIs(body, indent) <==> indent == Lines.LeadingWidth(body) / Lines.INDENT_WIDTH
  {
    forall k: nat | BlankUpTo(body, k) ensures Lines.LeadingWidth(body) == k + multiset(body[..k])[Lines.TAB] {
      WidthUpTo(body, k);
    }
    var k := BlankEnds(body);
  }

  lemma ItemExactly(t: Text, indent: nat, l: Line)
    requires l.Item? || l.Task?
    ensures Lines.ItemOf(t, indent) == l <==>
      && l.indent == indent
      && if l.Task? then TaskIs(t, l.checked, l.text) else ItemIs(t, l.ordered, l.text)
  {
    BulletExactly(t, l.text);
    NumberExactly(t, l.text);
    match Lines.BulletText(t)
    case Some(rest) =>
      NoNumber(t);
      BulletExactly(t, rest);
      BoxExactly(rest, true);
      BoxExactly(rest, false);
    case None =>
  }

  /** A bullet is no number. */
  lemma NoNumber(t: Text)
    requires Lines.BulletText(t).Some?
    ensures Lines.OrderedText(t).None?
  {
    assert !Lines.IsDigit(t[0]);
  }

  lemma NoHeadingExactly(t: Text)
    ensures (forall n, x :: !HeadingIs(t, n, x)) <==> Lines.AtxHeading(t).None?
  {
    forall n, x ensures HeadingIs(t, n, x) <==> Lines.AtxHeading(t) == Some(Heading(n, x)) {
      HeadingExactly(t, n, x);
    }
    if Lines.AtxHeading(t).Some? {
      var h := Lines.AtxHeading(t).value;
      assert HeadingIs(t, h.level, h.text);
    }
  }

  lemma NoNumberExactly(t: Text)
    ensures (forall x :: !NumberIs(t, x)) <==> Lines.OrderedText(t).None?
  {
    forall x ensures NumberIs(t, x) <==> Lines.OrderedText(t) == Some(x) {
      NumberExactly(t, x);
    }
    if Lines.OrderedText(t).Some? {
      assert NumberIs(t, Lines.OrderedText(t).value);
    }
  }

  lemma OtherExactly(t: Text)
    requires t != []
    ensures IsOther(t) <==>
      && !Lines.IsDivider(t) && Lines.AtxHeading(t).None? && (forall x :: !QuoteIs(t, x))
      && Lines.BulletText(t).None? && Lines.OrderedText(t).None?
  {
    RuleExactly(t);
    BulletExactly(t, []);
    NoHeadingExactly(t);
    NoNumberExactly(t);
  }

  /** The classes a byte can start. */
  lemma FirstByte(t: Text)
    requires t != []
    ensures Lines.IsDivider(t) ==> Lines.AtxHeading(t).None? && t[0] != Lines.GREATER && Lines.OrderedText(t).None? && Lines.BulletText(t).None?
    ensures Lines.AtxHeading(t).Some? ==> t[0] != Lines.GREATER && Lines.OrderedText(t).None? && Lines.BulletText(t).None?
    ensures t[0] == Lines.GREATER ==> Lines.OrderedText(t).None? && Lines.BulletText(t).None?
    ensures forall x :: QuoteIs(t, x) ==> t[0] == Lines.GREATER
  {
    assert Lines.IsDigit(t[0]) ==> t[0] != Lines.GREATER && t[0] != Lines.HASH;
    forall x ensures QuoteIs(t, x) ==> t[0] == Lines.GREATER {
      QuoteExactly(t, x);
    }
  }

  /** A line is classified as exactly what its bytes say. */
  lemma ClassifiedExactly(body: Text, l: Line)
    ensures LineIs(body, l) <==> Lines.Markdown().classify(body) == l
  {
    var t := Trim(body);
    if t != [] {
      FirstByte(t);
      RuleExactly(t);
      match l
      case BlankLine =>
      case Rule =>
      case Heading(level, text) => HeadingExactly(t, level, text);
      case Quoted(text) => QuoteExactly(t, text);
      case Item(_, indent, _) =>
        IndentExactly(body, indent);
        ItemExactly(t, Lines.LeadingWidth(body) / Lines.INDENT_WIDTH, l);
      case Task(indent, _, _) =>
        IndentExactly(body, indent);
        ItemExactly(t, Lines.LeadingWidth(body) / Lines.INDENT_WIDTH, l);
      case Prose(text) =>
        OtherExactly(t);
        QuoteExactly(t, []);
        QuoteExactly(t, if |t| >= 2 then t[2..] else []);
    }
  }

  // ----- Fences and line ends

  /** Three backticks or three tildes, and the language behind all of them. */
  ghost predicate FenceIs(body: Text, lang: Text) {
    var t := Trim(body);
    && (StartsWith(t, "```") || StartsWith(t, "~~~"))
    && exists n: nat :: MarksUpTo(t, n) && lang == Trim(t[n..])
  }

  predicate MarksUpTo(t: Text, n: nat) {
    n <= |t| && (forall i :: 0 <= i < n ==> IsMarkByte(t[i])) && (n < |t| ==> !IsMarkByte(t[n]))
  }

  predicate IsMarkByte(b: Byte) {
    b == '`' as int as Byte || b == '~' as int as Byte
  }

  lemma FenceExactly(body: Text, lang: Text)
    ensures FenceIs(body, lang) <==> Lines.Markdown().fence(body) == Some(lang)
  {
    var t := Trim(body);
    FenceMarks(t);
    forall n: nat ensures MarksUpTo(t, n) <==> n == Lines.Leading(t, Lines.IsFenceByte) {
      LeadingExactly(t, Lines.IsFenceByte, n);
    }
  }

  lemma FenceMarks(t: Text)
    ensures Lines.IsFence(t) <==> StartsWith(t, "```") || StartsWith(t, "~~~")
  {
    assert Ascii("```") == [Lines.TICK, Lines.TICK, Lines.TICK] && Ascii("~~~") == [Lines.TILDE, Lines.TILDE, Lines.TILDE];
    StartsThree(t, Lines.TICK);
    StartsThree(t, Lines.TILDE);
  }

  lemma StartsThree(s: Text, b: Byte)
    ensures [b, b, b] <= s <==> |s| >= 3 && s[0] == b && s[1] == b && s[2] == b
  {
  }

  /** Line ends are taken off, all of them and nothing else. */
  lemma {:induction false} LineEndsGo(line: Text)
    ensures var s := TrimLineEnd(line);
      && s <= line && (forall i :: |s| <= i < |line| ==> line[i] == '\r' as int as Byte || line[i] == '\n' as int as Byte)
      && (s != [] ==> s[|s| - 1] != '\r' as int as Byte && s[|s| - 1] != '\n' as int as Byte)
  {
    if line != [] && (line[|line| - 1] == CR || line[|line| - 1] == LF) {
      LineEndsGo(line[..|line| - 1]);
    }
  }
}
