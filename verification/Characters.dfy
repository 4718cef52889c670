// Characters as bytes.

module Characters {
  // Well-formed UTF-8 is what encoding code points gives (section 3 of RFC 3629), and
  // the white space trimmed off is a list of code points.

  import opened Sequences
  import opened Utf8
  import Trims

  /** A code point but no surrogate. */
  predicate IsScalar(c: int) {
    0 <= c < 0xD800 || 0xE000 <= c <= 0x10FFFF
  }

  function Tail(c: int): Byte {
    (0x80 + c % 0x40) as Byte
  }

  function Encode(c: int): Text
    requires IsScalar(c)
  {
    if c < 0x80 then [c as Byte]
    else if c < 0x800 then [(0xC0 + c / 0x40) as Byte, Tail(c)]
    else if c < 0x1_0000 then [(0xE0 + c / 0x1000) as Byte, Tail(c / 0x40), Tail(c)]
    else [(0xF0 + c / 0x4_0000) as Byte, Tail(c / 0x1000), Tail(c / 0x40), Tail(c)]
  }

  function EncodeAll(cs: seq<int>): Text
    requires forall i :: 0 <= i < |cs| ==> IsScalar(cs[i])
  {
    if cs == [] then [] else Encode(cs[0]) + EncodeAll(cs[1..])
  }

  // ----- One character

  lemma EncodedLength(c: int, s: Text)
    requires IsScalar(c) && Encode(c) <= s
    ensures CharLength(s) == |Encode(c)|
  {
    var e := Encode(c);
    assert forall k :: 0 <= k < |e| ==> s[k] == e[k];
  }

  function Low(b: Byte): int {
    b as int - 0x80
  }

  /** The code point of the character at the start of `s`. */
  function Decode(s: Text): int
    requires CharLength(s) > 0
  {
    var n, a := CharLength(s), s[0] as int;
    if n == 1 then a
    else if n == 2 then (a - 0xC0) * 0x40 + Low(s[1])
    else if n == 3 then (a - 0xE0) * 0x1000 + Low(s[1]) * 0x40 + Low(s[2])
    else (a - 0xF0) * 0x4_0000 + Low(s[1]) * 0x1000 + Low(s[2]) * 0x40 + Low(s[3])
  }

  lemma TwoBack(a: int, b: int, c: int)
    requires 0 <= b < 0x40 && c == a * 0x40 + b
    ensures c / 0x40 == a && c % 0x40 == b
  {
  }

  lemma ThreeBack(a: int, b: int, d: int, c: int)
    requires 0 <= b < 0x40 && 0 <= d < 0x40 && c == a * 0x1000 + b * 0x40 + d
    ensures c / 0x1000 == a && (c / 0x40) % 0x40 == b && c % 0x40 == d
  {
    TwoBack(a * 0x40 + b, d, c);
    TwoBack(a, b, c / 0x40);
  }

  lemma FourBack(a: int, b: int, d: int, e: int, c: int)
    requires 0 <= b < 0x40 && 0 <= d < 0x40 && 0 <= e < 0x40 && c == a * 0x4_0000 + b * 0x1000 + d * 0x40 + e
    ensures c / 0x4_0000 == a && (c / 0x1000) % 0x40 == b && (c / 0x40) % 0x40 == d && c % 0x40 == e
  {
    ThreeBack(a * 0x40 + b, d, e, c);
    TwoBack(a, b, c / 0x1000);
  }

  lemma ShortIsEncoded(s: Text)
    requires 0 < CharLength(s) <= 2
    ensures IsScalar(Decode(s)) && Encode(Decode(s)) == s[..CharLength(s)]
  {
    if CharLength(s) == 2 {
      TwoBack(s[0] as int - 0xC0, Low(s[1]), Decode(s));
    }
  }

  lemma LongIsEncoded(s: Text)
    requires CharLength(s) == 3
    ensures IsScalar(Decode(s)) && Encode(Decode(s)) == s[..3]
  {
    ThreeBack(s[0] as int - 0xE0, Low(s[1]), Low(s[2]), Decode(s));
  }

  lemma LongestIsEncoded(s: Text)
    requires CharLength(s) == 4
    ensures IsScalar(Decode(s)) && Encode(Decode(s)) == s[..4]
  {
    FourBack(s[0] as int - 0xF0, Low(s[1]), Low(s[2]), Low(s[3]), Decode(s));
  }

  lemma CharacterIsEncoded(s: Text)
    requires CharLength(s) > 0
    ensures IsScalar(Decode(s)) && Encode(Decode(s)) == s[..CharLength(s)]
  {
    if CharLength(s) <= 2 {
      ShortIsEncoded(s);
    } else if CharLength(s) == 3 {
      LongIsEncoded(s);
    } else {
      LongestIsEncoded(s);
    }
  }

  // ----- A whole text

  lemma {:induction false} EncodedIsValid(cs: seq<int>)
    requires forall i :: 0 <= i < |cs| ==> IsScalar(cs[i])
    ensures Valid(EncodeAll(cs))
  {
    if cs != [] {
      var e, rest := Encode(cs[0]), EncodeAll(cs[1..]);
      EncodedIsValid(cs[1..]);
      EncodedLength(cs[0], e + rest);
      assert (e + rest)[|e|..] == rest;
    }
  }

  lemma {:induction false} ValidIsEncoded(s: Text) returns (cs: seq<int>)
    requires Valid(s)
    ensures (forall i :: 0 <= i < |cs| ==> IsScalar(cs[i])) && EncodeAll(cs) == s
  {
    cs := [];
    if s != [] {
      var n := CharLength(s);
      CharacterIsEncoded(s);
      var rest := ValidIsEncoded(s[n..]);
      cs := [Decode(s)] + rest;
      assert s == s[..n] + s[n..] && cs[1..] == rest;
    }
  }

  /** A text is well formed exactly when it encodes some code points. */
  lemma ValidExactly(s: Text)
    ensures Valid(s) <==> exists cs: seq<int> :: (forall i :: 0 <= i < |cs| ==> IsScalar(cs[i])) && EncodeAll(cs) == s
  {
    if Valid(s) {
      var cs := ValidIsEncoded(s);
    }
    forall cs: seq<int> | (forall i :: 0 <= i < |cs| ==> IsScalar(cs[i])) && EncodeAll(cs) == s ensures Valid(s) {
      EncodedIsValid(cs);
    }
  }

  // ----- White space

  /** The white space characters of Unicode. */
  predicate IsWhite(c: int) {
    0x09 <= c <= 0x0D || c == 0x20 || c == 0x85 || c == 0xA0 || c == 0x1680 || 0x2000 <= c <= 0x200A
    || c == 0x2028 || c == 0x2029 || c == 0x202F || c == 0x205F || c == 0x3000
  }

  lemma WhiteIsSpace(c: int)
    requires IsWhite(c)
    ensures Trims.IsSpace(Encode(c))
  {
  }

  lemma SpaceIsWhite(s: Text)
    requires Trims.IsSpace(s)
    ensures CharLength(s) == |s| && IsWhite(Decode(s))
  {
  }

  /** What is trimmed is white space, encoded. */
  lemma SpaceExactly(s: Text)
    ensures Trims.IsSpace(s) <==> exists c :: IsWhite(c) && Encode(c) == s
  {
    if Trims.IsSpace(s) {
      SpaceIsWhite(s);
      CharacterIsEncoded(s);
      assert s[..|s|] == s;
    }
    forall c | IsWhite(c) && Encode(c) == s ensures Trims.IsSpace(s) {
      WhiteIsSpace(c);
    }
  }
}
