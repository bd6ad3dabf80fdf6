/** UTF-8 text as bytes (the byte grammar of section 4 of RFC 3629), character
    boundaries as the standard library tests them, and character counts. */
module Utf8 {

  newtype Byte = b: int | 0 <= b < 256

  predicate IsContinuation(b: Byte) { 0x80 <= b < 0xC0 }

  /** The length of the well-formed character at offset i, or 0 if there is none. */
  function CharLen(s: seq<Byte>, i: nat): (n: nat)
    requires i <= |s|
    ensures i + n <= |s|
    ensures n > 0 ==> !IsContinuation(s[i]) && forall k | i < k < i + n :: IsContinuation(s[k])
  {
    if i == |s| then 0
    else if s[i] < 0x80 then 1
    else if 0xC2 <= s[i] <= 0xDF then
      if i + 2 <= |s| && IsContinuation(s[i + 1]) then 2 else 0
    else if 0xE0 <= s[i] <= 0xEF then
      if i + 3 <= |s| && SecondOfThree(s[i], s[i + 1]) && IsContinuation(s[i + 2]) then 3 else 0
    else if 0xF0 <= s[i] <= 0xF4 then
      if i + 4 <= |s| && SecondOfFour(s[i], s[i + 1]) && IsContinuation(s[i + 2]) && IsContinuation(s[i + 3])
      then 4 else 0
    else 0
  }

  predicate SecondOfThree(first: Byte, second: Byte) {
    IsContinuation(second) && (first == 0xE0 ==> second >= 0xA0) && (first == 0xED ==> second <= 0x9F)
  }

  predicate SecondOfFour(first: Byte, second: Byte) {
    IsContinuation(second) && (first == 0xF0 ==> second >= 0x90) && (first == 0xF4 ==> second <= 0x8F)
  }

  /** The text from offset i on is a sequence of well-formed characters. */
  predicate ValidFrom(s: seq<Byte>, i: nat)
    requires i <= |s|
    decreases |s| - i
  {
    i == |s| || (CharLen(s, i) > 0 && ValidFrom(s, i + CharLen(s, i)))
  }

  predicate Valid(s: seq<Byte>) { ValidFrom(s, 0) }

  // -------------------------------------- validity means being an encoding

  type Scalar = c: int | 0 <= c < 0xD800 || 0xE000 <= c < 0x11_0000

  function Tail(c: nat): Byte { (0x80 + c % 64) as Byte }

  /** The encoder of section 3 of RFC 3629. */
  function Encode(c: Scalar): (bytes: seq<Byte>)
    ensures |bytes| >= 1
  {
    if c < 0x80 then [c as Byte]
    else if c < 0x800 then [(0xC0 + c / 64) as Byte, Tail(c)]
    else if c < 0x1_0000 then [(0xE0 + c / 64 / 64) as Byte, Tail(c / 64), Tail(c)]
    else [(0xF0 + c / 64 / 64 / 64) as Byte, Tail(c / 64 / 64), Tail(c / 64), Tail(c)]
  }

  function EncodeAll(cs: seq<Scalar>): seq<Byte> {
    if cs == [] then [] else Encode(cs[0]) + EncodeAll(cs[1..])
  }

  /** What the encoder wrote is recognised at its full length. */
  lemma EncodedIsRecognised(s: seq<Byte>, i: nat, c: Scalar)
    requires i + |Encode(c)| <= |s| && s[i..i + |Encode(c)|] == Encode(c)
    ensures CharLen(s, i) == |Encode(c)|
  {
    assert forall k | 0 <= k < |Encode(c)| :: s[i + k] == Encode(c)[k];
    assert s[i] == Encode(c)[0];
  }

  function Low(b: Byte): int { b as int - 0x80 }

  lemma Digits(q: nat, b: Byte)
    requires IsContinuation(b)
    ensures (q * 64 + Low(b)) / 64 == q && Tail(q * 64 + Low(b)) == b
  {
  }

  lemma TwoBytes(a: Byte, b: Byte) returns (c: Scalar)
    requires 0xC2 <= a <= 0xDF && IsContinuation(b)
    ensures Encode(c) == [a, b]
  {
    c := (a as int - 0xC0) * 64 + Low(b);
    Digits(a as int - 0xC0, b);
  }

  lemma ThreeBytes(a: Byte, b: Byte, d: Byte) returns (c: Scalar)
    requires 0xE0 <= a <= 0xEF && SecondOfThree(a, b) && IsContinuation(d)
    ensures Encode(c) == [a, b, d]
  {
    var q := (a as int - 0xE0) * 64 + Low(b);
    c := q * 64 + Low(d);
    Digits(a as int - 0xE0, b);
    Digits(q, d);
  }

  lemma FourBytes(a: Byte, b: Byte, d: Byte, e: Byte) returns (c: Scalar)
    requires 0xF0 <= a <= 0xF4 && SecondOfFour(a, b) && IsContinuation(d) && IsContinuation(e)
    ensures Encode(c) == [a, b, d, e]
  {
    var q := (a as int - 0xF0) * 64 + Low(b);
    var r := q * 64 + Low(d);
    c := r * 64 + Low(e);
    Digits(a as int - 0xF0, b);
    Digits(q, d);
    Digits(r, e);
  }

  /** What is recognised is the encoding of a scalar value. */
  lemma RecognisedIsEncoded(s: seq<Byte>, i: nat) returns (c: Scalar)
    requires i <= |s| && CharLen(s, i) > 0
    ensures s[i..i + CharLen(s, i)] == Encode(c)
  {
    var n := CharLen(s, i);
    if n == 1 {
      c := s[i] as int;
    } else if n == 2 {
      c := TwoBytes(s[i], s[i + 1]);
    } else if n == 3 {
      c := ThreeBytes(s[i], s[i + 1], s[i + 2]);
    } else {
      c := FourBytes(s[i], s[i + 1], s[i + 2], s[i + 3]);
    }
  }

  lemma SplitAt(s: seq<Byte>, i: nat, a: seq<Byte>, b: seq<Byte>)
    requires i <= |s| && s[i..] == a + b
    ensures i + |a| <= |s| && s[i..i + |a|] == a && s[i + |a|..] == b
  {
    assert s[i..i + |a|] == s[i..][..|a|] && s[i + |a|..] == s[i..][|a|..];
  }

  /** An encoded text starts with its first character, followed by the rest. */
  lemma FirstIsRecognised(s: seq<Byte>, i: nat, c: Scalar, rest: seq<Byte>)
    requires i <= |s| && s[i..] == Encode(c) + rest
    ensures CharLen(s, i) == |Encode(c)| && i + |Encode(c)| <= |s| && s[i + |Encode(c)|..] == rest
  {
    SplitAt(s, i, Encode(c), rest);
    EncodedIsRecognised(s, i, c);
  }

  lemma {:induction false} EncodingIsValid(s: seq<Byte>, i: nat, cs: seq<Scalar>)
    requires i <= |s| && s[i..] == EncodeAll(cs)
    ensures ValidFrom(s, i)
    decreases |cs|
  {
    if cs != [] {
      FirstIsRecognised(s, i, cs[0], EncodeAll(cs[1..]));
      EncodingIsValid(s, i + CharLen(s, i), cs[1..]);
    }
  }

  lemma EncodeAllCons(c: Scalar, rest: seq<Scalar>)
    ensures EncodeAll([c] + rest) == Encode(c) + EncodeAll(rest)
  {
    assert ([c] + rest)[1..] == rest;
  }

  lemma JoinAt(s: seq<Byte>, i: nat, n: nat)
    requires i + n <= |s|
    ensures s[i..] == s[i..i + n] + s[i + n..]
  {
  }

  lemma {:induction false} ValidIsEncoding(s: seq<Byte>, i: nat) returns (cs: seq<Scalar>)
    requires i <= |s| && ValidFrom(s, i)
    ensures s[i..] == EncodeAll(cs)
    decreases |s| - i
  {
    if i == |s| {
      cs := [];
    } else {
      var c := RecognisedIsEncoded(s, i);
      var rest := ValidIsEncoding(s, i + CharLen(s, i));
      cs := [c] + rest;
      EncodeAllCons(c, rest);
      JoinAt(s, i, CharLen(s, i));
    }
  }

  /** The byte grammar accepts exactly the encodings of scalar values. */
  lemma ValidIff(s: seq<Byte>)
    ensures Valid(s) <==> exists cs: seq<Scalar> :: s == EncodeAll(cs)
  {
    assert s[0..] == s;
    if Valid(s) {
      var cs := ValidIsEncoding(s, 0);
    }
    forall cs: seq<Scalar> | s == EncodeAll(cs) ensures Valid(s) {
      EncodingIsValid(s, 0, cs);
    }
  }

  // -------------------------------------------------------------- boundaries

  /** The standard library's test for a character boundary. */
  predicate Boundary(s: seq<Byte>, i: nat) {
    i == 0 || i == |s| || (i < |s| && !IsContinuation(s[i]))
  }

  /** Valid text can be read on from every boundary. */
  lemma {:induction false} ValidFromBoundary(s: seq<Byte>, i: nat, j: nat)
    requires i <= j <= |s| && ValidFrom(s, i) && (i == j || Boundary(s, j))
    ensures ValidFrom(s, j)
    decreases |s| - i
  {
    if i < j {
      ValidFromBoundary(s, i + CharLen(s, i), j);
    }
  }

  lemma ValidAt(s: seq<Byte>, i: nat)
    requires Valid(s) && i <= |s| && Boundary(s, i)
    ensures ValidFrom(s, i)
    ensures i < |s| ==> CharLen(s, i) > 0 && !IsContinuation(s[i])
  {
    ValidFromBoundary(s, 0, i);
  }

  /** Both sides of an ASCII byte in valid text are boundaries. */
  lemma AsciiBoundaries(s: seq<Byte>, i: nat)
    requires Valid(s) && i < |s| && s[i] < 0x80
    ensures Boundary(s, i) && Boundary(s, i + 1)
  {
    ValidAt(s, i);
    assert ValidFrom(s, i + 1);
    assert i + 1 < |s| ==> CharLen(s, i + 1) > 0;
  }

  // --------------------------------------------------------------- characters

  /** The number of characters from offset i on, by decoding them. */
  function CountFrom(s: seq<Byte>, i: nat): nat
    requires i <= |s| && ValidFrom(s, i)
    decreases |s| - i
  {
    if i == |s| then 0 else 1 + CountFrom(s, i + CharLen(s, i))
  }

  /** The number of character starts in s[i..j]. */
  function Chars(s: seq<Byte>, i: nat, j: nat): nat
    requires j <= |s|
    decreases j
  {
    if j <= i then 0 else Chars(s, i, j - 1) + if IsContinuation(s[j - 1]) then 0 else 1
  }

  lemma {:induction false} CharsSplit(s: seq<Byte>, i: nat, m: nat, j: nat)
    requires i <= m <= j <= |s|
    ensures Chars(s, i, j) == Chars(s, i, m) + Chars(s, m, j)
    decreases j
  {
    if m < j { CharsSplit(s, i, m, j - 1); }
  }

  lemma {:induction false} CharsOfTail(s: seq<Byte>, i: nat, j: nat)
    requires i <= j <= |s| && forall k | i <= k < j :: IsContinuation(s[k])
    ensures Chars(s, i, j) == 0
    decreases j
  {
    if i < j { CharsOfTail(s, i, j - 1); }
  }

  /** One start followed by continuation bytes is one character. */
  lemma OneChar(s: seq<Byte>, i: nat, j: nat)
    requires i < j <= |s| && !IsContinuation(s[i]) && forall k | i < k < j :: IsContinuation(s[k])
    ensures Chars(s, i, j) == 1
  {
    CharsSplit(s, i, i + 1, j);
    CharsOfTail(s, i + 1, j);
    assert Chars(s, i, i) == 0;
  }

  /** In valid text, counting starts counts characters. */
  lemma {:induction false} CountIsChars(s: seq<Byte>, i: nat)
    requires i <= |s| && ValidFrom(s, i)
    ensures CountFrom(s, i) == Chars(s, i, |s|)
    decreases |s| - i
  {
    if i < |s| {
      var next := i + CharLen(s, i);
      OneChar(s, i, next);
      CharsSplit(s, i, next, |s|);
      CountIsChars(s, next);
    }
  }

  /** The start of the character that ends at boundary p. */
  function PrevStart(s: seq<Byte>, p: nat): (q: nat)
    requires 0 < p <= |s|
    ensures q < p && (q == 0 || !IsContinuation(s[q]))
    ensures forall k | q < k < p :: IsContinuation(s[k])
    decreases p
  {
    if p == 1 || !IsContinuation(s[p - 1]) then p - 1 else PrevStart(s, p - 1)
  }

  /** The end of the character that starts at p. */
  function NextStart(s: seq<Byte>, p: nat): (q: nat)
    requires p < |s|
    ensures p < q <= |s| && (q == |s| || !IsContinuation(s[q]))
    ensures forall k | p < k < q :: IsContinuation(s[k])
    decreases |s| - p
  {
    if p + 1 == |s| || !IsContinuation(s[p + 1]) then p + 1 else NextStart(s, p + 1)
  }

  /** In valid text a character's length is the distance to the next start. */
  lemma NextStartIsCharEnd(s: seq<Byte>, p: nat)
    requires Valid(s) && p < |s| && Boundary(s, p)
    ensures NextStart(s, p) == p + CharLen(s, p)
  {
    ValidAt(s, p);
    var end := p + CharLen(s, p);
    assert ValidFrom(s, end);
    assert end < |s| ==> CharLen(s, end) > 0;
  }
}
