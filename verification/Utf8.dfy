// UTF-8 well-formedness (section 4 of RFC 3629).

module Utf8 {
  import Blocks

  type Byte = Blocks.Byte
  type Text = seq<Byte>

  predicate IsTail(b: Byte) {
    0x80 <= b <= 0xBF
  }

  /** Length of the character at the start of `s`; 0 when there is none. */
  function CharLength(s: Text): (n: nat)
    ensures n <= |s| && n <= 4
  {
    if s == [] then 0
    else if s[0] < 0x80 then 1
    else if |s| >= 2 && 0xC2 <= s[0] <= 0xDF && IsTail(s[1]) then 2
    else if |s| >= 3 && IsTail(s[2]) && (
        (s[0] == 0xE0 && 0xA0 <= s[1] <= 0xBF) || (0xE1 <= s[0] <= 0xEC && IsTail(s[1]))
        || (s[0] == 0xED && 0x80 <= s[1] <= 0x9F) || (0xEE <= s[0] <= 0xEF && IsTail(s[1]))) then 3
    else if |s| >= 4 && IsTail(s[2]) && IsTail(s[3]) && (
        (s[0] == 0xF0 && 0x90 <= s[1] <= 0xBF) || (0xF1 <= s[0] <= 0xF3 && IsTail(s[1]))
        || (s[0] == 0xF4 && 0x80 <= s[1] <= 0x8F)) then 4
    else 0
  }

  /** A whole number of well-formed characters. */
  predicate Valid(s: Text) {
    s == [] || (CharLength(s) > 0 && Valid(s[CharLength(s)..]))
  }

  lemma LengthIsLocal(s: Text, t: Text)
    requires CharLength(s) > 0 && CharLength(s) <= |t|
    requires forall k :: 0 <= k < CharLength(s) ==> t[k] == s[k]
    ensures CharLength(t) == CharLength(s)
  {
  }

  /** Only one-byte characters hold a byte below 0x80. */
  lemma LongCharacters(s: Text, k: nat)
    requires 1 < CharLength(s) && k < CharLength(s)
    ensures s[k] >= 0x80
  {
  }

  lemma {:induction false} ValidJoin(a: Text, b: Text)
    requires Valid(a) && Valid(b)
    ensures Valid(a + b)
  {
    if a == [] {
      assert a + b == b;
    } else {
      var n := CharLength(a);
      ValidJoin(a[n..], b);
      FirstStays(a, b, n);
      ValidStep(a + b, n);
    }
  }

  lemma FirstStays(a: Text, b: Text, n: nat)
    requires n == CharLength(a) > 0
    ensures CharLength(a + b) == n && (a + b)[n..] == a[n..] + b
  {
    LengthIsLocal(a, a + b);
  }

  lemma ValidStep(s: Text, n: nat)
    requires n == CharLength(s) > 0 && Valid(s[n..])
    ensures Valid(s)
  {
  }

  lemma CutBehind(s: Text, n: nat, i: nat, k: nat)
    requires n <= i <= |s| && k == i - n
    ensures s[..i][n..] == s[n..][..k] && s[n..][k..] == s[i..]
  {
  }

  /** Text may be cut before any byte below 0x80. */
  lemma {:induction false} ValidCut(s: Text, i: nat)
    requires Valid(s) && i <= |s| && (i < |s| ==> s[i] < 0x80)
    ensures Valid(s[..i]) && Valid(s[i..])
  {
    if i == 0 {
      assert s[0..] == s;
    } else {
      var n := CharLength(s);
      if i < n {
        LongCharacters(s, i);
      }
      CutBehind(s, n, i, i - n);
      ValidCut(s[n..], i - n);
      LengthIsLocal(s, s[..i]);
      ValidStep(s[..i], n);
    }
  }

  /** And after bytes below 0x80 at its start. */
  lemma {:induction false} ValidSkip(s: Text, n: nat)
    requires Valid(s) && n <= |s| && forall k :: 0 <= k < n ==> s[k] < 0x80
    ensures Valid(s[n..])
  {
    if n > 0 {
      ValidSkip(s[1..], n - 1);
      assert s[1..][n - 1..] == s[n..];
    } else {
      assert s[0..] == s;
    }
  }

  /** A character ends at `off`. */
  ghost predicate Boundary(t: Text, off: nat) {
    off <= |t| && Valid(t[..off])
  }

  lemma CharacterBytes(s: Text, k: nat)
    requires 0 < k < CharLength(s)
    ensures IsTail(s[k]) && !IsTail(s[0])
  {
  }

  lemma ValidAfterFirst(s: Text, off: nat, n: nat, m: nat)
    requires n == CharLength(s) > 0 && off == n + m <= |s|
    ensures Valid(s[..off]) <==> Valid(s[n..][..m])
  {
    CutBehind(s, n, off, m);
    LengthIsLocal(s, s[..off]);
  }

  /** A character ends exactly where none goes on. */
  lemma {:induction false} BoundaryExactly(t: Text, off: nat)
    requires Valid(t) && off <= |t|
    ensures Boundary(t, off) <==> off == |t| || !IsTail(t[off])
    decreases |t|
  {
    if t != [] && off > 0 {
      var n := CharLength(t);
      if off < n {
        CharacterBytes(t, off);
        InsideFirst(t, off, n);
      } else {
        ValidAfterFirst(t, off, n, off - n);
        BoundaryExactly(t[n..], off - n);
      }
    } else if t != [] {
      assert !IsTail(t[0]);
    }
  }

  /** A character cut short is not well formed. */
  lemma InsideFirst(t: Text, off: nat, n: nat)
    requires n == CharLength(t) && 0 < off < n
    ensures !Valid(t[..off])
  {
    var s := t[..off];
    assert s[0] == t[0];
    assert CharLength(s) == 0;
  }
}
