// Ids, kinds, content and rows.

module Options {
  datatype Option<+T> = None | Some(value: T)

  datatype Result<+R, +E> = Ok(value: R) | Err(error: E)
}

module Blocks {
  import opened Options

  // A UUID read as a number; 0 is Go's zero UUID.
  type BlockId = nat
  type PageId = nat
  type FileId = nat

  newtype Byte = x: int | 0 <= x < 0x100

  /** Bytewise string order, as Go compares strings. */
  predicate Less(a: seq<Byte>, b: seq<Byte>) {
    b != [] && (a == [] || a[0] < b[0] || (a[0] == b[0] && Less(a[1..], b[1..])))
  }

  /** Different strings are ordered one way and not the other. */
  lemma {:induction false} LessIsTotal(a: seq<Byte>, b: seq<Byte>)
    ensures !(Less(a, b) && Less(b, a))
    ensures Less(a, b) || Less(b, a) <==> a != b
  {
    if a != [] && b != [] {
      LessIsTotal(a[1..], b[1..]);
      assert a == [a[0]] + a[1..] && b == [b[0]] + b[1..];
    }
  }

  /** `a` comes first at the first byte where the two differ: it ends there, or its byte is smaller. */
  ghost predicate FirstBy(a: seq<Byte>, b: seq<Byte>, n: nat) {
    n <= |a| && n < |b| && a[..n] == b[..n] && (n == |a| || a[n] < b[n])
  }

  lemma {:induction false} LessExactly(a: seq<Byte>, b: seq<Byte>)
    ensures Less(a, b) <==> exists n :: FirstBy(a, b, n)
  {
    if a != [] && b != [] && a[0] == b[0] {
      LessExactly(a[1..], b[1..]);
      if n: nat :| FirstBy(a[1..], b[1..], n) {
        FirstByBehind(a, b, n, n + 1);
      }
      if n: nat :| FirstBy(a, b, n) {
        FirstByBehind(a, b, n - 1, n);
      }
    } else {
      assert Less(a, b) ==> FirstBy(a, b, 0);
      if n: nat :| FirstBy(a, b, n) {
        FirstByStart(a, b, n);
      }
    }
  }

  lemma FirstByStart(a: seq<Byte>, b: seq<Byte>, n: nat)
    requires FirstBy(a, b, n)
    ensures b != [] && (n == 0 || (a != [] && a[0] == b[0]))
  {
    if n > 0 {
      assert a[..n][0] == b[..n][0];
    }
  }

  lemma FirstByBehind(a: seq<Byte>, b: seq<Byte>, n: nat, m: nat)
    requires a != [] && b != [] && a[0] == b[0] && m == n + 1
    ensures FirstBy(a[1..], b[1..], n) <==> FirstBy(a, b, m)
  {
    if m <= |a| && m <= |b| {
      assert a[..m] == [a[0]] + a[1..][..n] && b[..m] == [b[0]] + b[1..][..n];
      assert a[..m][1..] == a[1..][..n] && b[..m][1..] == b[1..][..n];
    }
  }

  lemma {:induction false} LessIsTransitive(a: seq<Byte>, b: seq<Byte>, c: seq<Byte>)
    requires Less(a, b) && Less(b, c)
    ensures Less(a, c)
  {
    if a != [] && a[0] == b[0] == c[0] {
      LessIsTransitive(a[1..], b[1..], c[1..]);
    }
  }

  datatype BlockTag =
    | Paragraph
    | Heading
    | Quote
    | CodeBlock
    | Divider
    | List
    | ListItem
    | Toggle
    | Image
    | Callout
    | Aside
  {
    /** Whether a block of this tag can hold children. */
    predicate IsContainer() {
      Quote? || Toggle? || List? || ListItem? || Callout? || Aside?
    }
  }

  datatype ListKind = Bulleted | Numbered | Todo

  datatype CalloutTone = Warn | Note | Info | Tip | Danger | Success

  datatype BlockKind = BlockKind(
    tag: BlockTag,
    level: nat,
    language: seq<Byte>,
    listKind: ListKind,
    checked: bool,
    fileId: FileId,
    tone: CalloutTone,
    icon: seq<Byte>,
    emoji: seq<Byte>)

  /** The Go zero kind with the tag filled in. */
  function Plain(tag: BlockTag): BlockKind {
    BlockKind(tag, 0, [], Bulleted, false, 0, Warn, [], [])
  }

  datatype MarkTag = Bold | Italic | Strike | Code | Link | PageLink | Highlight

  datatype MarkKind = MarkKind(tag: MarkTag, url: seq<Byte>, page: PageId)

  datatype Mark = Mark(kind: MarkKind, start: nat, end: nat)

  datatype Content = Content(text: seq<Byte>, marks: seq<Mark>)

  // What a block holds besides its place in the tree.
  datatype Body = Body(kind: BlockKind, content: Content)

  // One row of a page's flat slice.
  datatype Block = Block(id: BlockId, parent: Option<BlockId>, body: Body)

  const ZERO_BLOCK := Block(0, None, Body(Plain(Paragraph), Content([], [])))

  /** A list item may hold only lists and paragraphs; every other container holds anything. */
  predicate ChildAllowed(parent: BlockTag, child: BlockTag) {
    parent == ListItem ==> child == List || child == Paragraph
  }
}
