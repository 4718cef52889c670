// White space around a title, over UTF-8 bytes.

module Trims {
  import opened Sequences
  import Blocks

  type Byte = Blocks.Byte

  type Text = seq<Byte>

  /** The bytes of a text of ASCII characters. */
  function Ascii(s: string): Text
    requires forall k :: 0 <= k < |s| ==> s[k] < 128 as char
  {
    seq(|s|, k requires 0 <= k < |s| => s[k] as int as Byte)
  }

  predicate Space1(a: Byte) {
    9 <= a <= 13 || a == 32
  }

  predicate Space2(a: Byte, b: Byte) {
    a == 0xC2 && (b == 0x85 || b == 0xA0)
  }

  predicate Space3(a: Byte, b: Byte, c: Byte) {
    || (a == 0xE1 && b == 0x9A && c == 0x80)
    || (a == 0xE2 && b == 0x80 && (0x80 <= c <= 0x8A || c == 0xA8 || c == 0xA9 || c == 0xAF))
    || (a == 0xE2 && b == 0x81 && c == 0x9F)
    || (a == 0xE3 && b == 0x80 && c == 0x80)
  }

  /** One white-space character, encoded. */
  predicate IsSpace(c: Text) {
    || (|c| == 1 && Space1(c[0]))
    || (|c| == 2 && Space2(c[0], c[1]))
    || (|c| == 3 && Space3(c[0], c[1], c[2]))
  }

  /** The size of the white-space character `s` starts with, or 0. */
  function SpaceAhead(s: Text): (n: nat)
    ensures n <= |s| && (n > 0 ==> IsSpace(s[..n]))
  {
    if |s| >= 1 && Space1(s[0]) then 1
    else if |s| >= 2 && Space2(s[0], s[1]) then 2
    else if |s| >= 3 && Space3(s[0], s[1], s[2]) then 3
    else 0
  }

  /** The size of the white-space character `s` ends with, or 0. */
  function SpaceBehind(s: Text): (n: nat)
    ensures n <= |s| && (n > 0 ==> IsSpace(s[|s| - n..]))
  {
    var e := |s|;
    if e >= 1 && Space1(s[e - 1]) then 1
    else if e >= 2 && Space2(s[e - 2], s[e - 1]) then 2
    else if e >= 3 && Space3(s[e - 3], s[e - 2], s[e - 1]) then 3
    else 0
  }

  function TrimLeft(s: Text): Text {
    if SpaceAhead(s) == 0 then s else TrimLeft(s[SpaceAhead(s)..])
  }

  function TrimRight(s: Text): Text {
    if SpaceBehind(s) == 0 then s else TrimRight(s[..|s| - SpaceBehind(s)])
  }

  function Trim(s: Text): Text {
    TrimRight(TrimLeft(s))
  }

  /** White-space characters and nothing else. */
  predicate Spaces(s: Text) {
    s == [] || (SpaceAhead(s) > 0 && Spaces(s[SpaceAhead(s)..]))
  }

  lemma SpaceAheadExtends(s: Text, more: Text)
    requires SpaceAhead(s) > 0
    ensures SpaceAhead(s + more) == SpaceAhead(s)
  {
    assert |s| >= 1 ==> (s + more)[..1] == s[..1];
    assert |s| >= 2 ==> (s + more)[..2] == s[..2];
    assert |s| >= 3 ==> (s + more)[..3] == s[..3];
  }

  lemma OneSpace(c: Text, more: Text)
    requires IsSpace(c)
    ensures SpaceAhead(c + more) == |c| > 0
  {
    assert c[..|c|] == c;
    SpaceAheadExtends(c, more);
  }

  lemma SpacesCons(c: Text, more: Text)
    requires IsSpace(c) && Spaces(more)
    ensures Spaces(c + more)
  {
    OneSpace(c, more);
    assert (c + more)[|c|..] == more;
  }

  lemma {:induction false} SpacesSnoc(a: Text, c: Text)
    requires Spaces(a) && IsSpace(c)
    ensures Spaces(a + c)
  {
    if a == [] {
      SpacesCons(c, []);
      assert a + c == c + [];
    } else {
      var n := SpaceAhead(a);
      SpaceAheadExtends(a, c);
      assert (a + c)[n..] == a[n..] + c;
      SpacesSnoc(a[n..], c);
    }
  }

  lemma CutAt(s: Text, n: nat)
    requires n <= |s|
    ensures s == s[..n] + s[n..]
  {
  }

  lemma {:induction false} TrimLeftCuts(s: Text) returns (before: Text)
    ensures s == before + TrimLeft(s) && Spaces(before)
    ensures SpaceAhead(TrimLeft(s)) == 0
  {
    if SpaceAhead(s) == 0 {
      before := [];
    } else {
      var c, rest := s[..SpaceAhead(s)], s[SpaceAhead(s)..];
      var more := TrimLeftCuts(rest);
      CutAt(s, SpaceAhead(s));
      Regroup(c, more, TrimLeft(rest));
      SpacesCons(c, more);
      before := c + more;
    }
  }

  lemma {:induction false} TrimRightCuts(s: Text) returns (after: Text)
    ensures s == TrimRight(s) + after && Spaces(after)
    ensures SpaceBehind(TrimRight(s)) == 0
  {
    if SpaceBehind(s) == 0 {
      after := [];
    } else {
      var n := |s| - SpaceBehind(s);
      var rest, c := s[..n], s[n..];
      var more := TrimRightCuts(rest);
      CutAt(s, n);
      Regroup(TrimRight(rest), more, c);
      SpacesSnoc(more, c);
      after := more + c;
    }
  }

  /** Trimming takes white space off both ends, all of it and nothing else. */
  lemma TrimCutsSpace(s: Text) returns (before: Text, after: Text)
    ensures s == before + (Trim(s) + after) && Spaces(before) && Spaces(after)
    ensures SpaceAhead(Trim(s)) == 0 && SpaceBehind(Trim(s)) == 0
  {
    before := TrimLeftCuts(s);
    after := TrimRightCuts(TrimLeft(s));
    NoSpaceAhead(Trim(s), after);
  }

  lemma NoSpaceAhead(s: Text, more: Text)
    requires SpaceAhead(s + more) == 0
    ensures SpaceAhead(s) == 0
  {
    if SpaceAhead(s) > 0 {
      SpaceAheadExtends(s, more);
    }
  }
}
