/** Bytes and well-formed UTF-8, as section 4 of RFC 3629 defines it. */
module Utf8 {
  type Byte = b: int | 0 <= b < 256
  type Text = seq<Byte>

  predicate Continuation(b: Byte) { 0x80 <= b <= 0xBF }

  /** The length of the well-formed character a text begins with, 0 if it begins with none. */
  function CharLen(s: Text): (n: nat)
    ensures n <= 4 && n <= |s|
  {
    if |s| >= 1 && s[0] <= 0x7F then 1
    else if |s| >= 2 && 0xC2 <= s[0] <= 0xDF && Continuation(s[1]) then 2
    else if |s| >= 3 && Continuation(s[2]) && Second3(s[0], s[1]) then 3
    else if |s| >= 4 && Continuation(s[2]) && Continuation(s[3]) && Second4(s[0], s[1]) then 4
    else 0
  }

  predicate Second3(a: Byte, b: Byte) {
    || (a == 0xE0 && 0xA0 <= b <= 0xBF)
    || (a == 0xED && 0x80 <= b <= 0x9F)
    || (0xE1 <= a <= 0xEF && a != 0xED && Continuation(b))
  }

  predicate Second4(a: Byte, b: Byte) {
    || (a == 0xF0 && 0x90 <= b <= 0xBF)
    || (a == 0xF4 && 0x80 <= b <= 0x8F)
    || (0xF1 <= a <= 0xF3 && Continuation(b))
  }

  predicate WellFormed(s: Text) {
    s == [] || (CharLen(s) > 0 && WellFormed(s[CharLen(s)..]))
  }

  // Characters

  /** The scalar values: no surrogates. */
  type Scalar = c: int | 0 <= c < 0xD800 || 0xE000 <= c <= 0x10FFFF

  /** Section 3 of RFC 3629. */
  function Encode(c: Scalar): Text {
    if c < 0x80 then [c]
    else if c < 0x800 then [0xC0 + c / 0x40, 0x80 + c % 0x40]
    else if c < 0x10000 then [0xE0 + c / 0x1000, 0x80 + c / 0x40 % 0x40, 0x80 + c % 0x40]
    else [0xF0 + c / 0x40000, 0x80 + c / 0x1000 % 0x40, 0x80 + c / 0x40 % 0x40, 0x80 + c % 0x40]
  }

  function EncodeAll(cs: seq<Scalar>): Text {
    if cs == [] then [] else Encode(cs[0]) + EncodeAll(cs[1..])
  }

  lemma Two(s: Text) returns (c: Scalar)
    requires CharLen(s) == 2
    ensures s[..2] == Encode(c)
  {
    c := (s[0] as int - 0xC0) * 0x40 + (s[1] as int - 0x80);
  }

  lemma SixBits(a: nat, b: nat, c: nat, d: nat)
    requires b < 0x40 && c < 0x40 && d < 0x40
    ensures var v := a * 0x40000 + b * 0x1000 + c * 0x40 + d;
      v / 0x40000 == a && v / 0x1000 % 0x40 == b && v / 0x40 % 0x40 == c && v % 0x40 == d
  {
    var v := a * 0x40000 + b * 0x1000 + c * 0x40 + d;
    assert v / 0x40 == a * 0x1000 + b * 0x40 + c;
    assert v / 0x1000 == a * 0x40 + b;
  }

  lemma Three(s: Text) returns (c: Scalar)
    requires CharLen(s) == 3
    ensures s[..3] == Encode(c)
  {
    SixBits(0, s[0] as int - 0xE0, s[1] as int - 0x80, s[2] as int - 0x80);
    c := (s[0] as int - 0xE0) * 0x1000 + (s[1] as int - 0x80) * 0x40 + (s[2] as int - 0x80);
  }

  lemma Four(s: Text) returns (c: Scalar)
    requires CharLen(s) == 4
    ensures s[..4] == Encode(c)
  {
    SixBits(s[0] as int - 0xF0, s[1] as int - 0x80, s[2] as int - 0x80, s[3] as int - 0x80);
    c := (s[0] as int - 0xF0) * 0x40000 + (s[1] as int - 0x80) * 0x1000
         + (s[2] as int - 0x80) * 0x40 + (s[3] as int - 0x80);
  }

  /** What counts as a character is the encoding of one. */
  lemma FirstIsEncoded(s: Text) returns (c: Scalar)
    requires CharLen(s) > 0
    ensures s[..CharLen(s)] == Encode(c)
  {
    match CharLen(s)
    case 1 => c := s[0];
    case 2 => c := Two(s);
    case 3 => c := Three(s);
    case 4 => c := Four(s);
  }

  /** The encoding of a scalar counts as one character, whatever follows. */
  lemma EncodedIsFirst(c: Scalar, rest: Text)
    ensures CharLen(Encode(c) + rest) == |Encode(c)| > 0
  {
  }

  /** A text is well-formed iff it encodes a sequence of scalar values. */
  lemma WellFormedIff(s: Text)
    ensures WellFormed(s) <==> exists cs :: s == EncodeAll(cs)
  {
    if WellFormed(s) {
      var cs := Decoded(s);
    }
    if cs :| s == EncodeAll(cs) {
      EncodedIsWellFormed(cs);
    }
  }

  lemma {:induction false} Decoded(s: Text) returns (cs: seq<Scalar>)
    requires WellFormed(s)
    ensures s == EncodeAll(cs)
  {
    if s == [] {
      cs := [];
    } else {
      var c := FirstIsEncoded(s);
      var rest := Decoded(s[CharLen(s)..]);
      cs := [c] + rest;
      assert s == s[..CharLen(s)] + s[CharLen(s)..];
    }
  }

  lemma {:induction false} EncodedIsWellFormed(cs: seq<Scalar>)
    ensures WellFormed(EncodeAll(cs))
  {
    if cs != [] {
      var s := EncodeAll(cs);
      EncodedIsWellFormed(cs[1..]);
      EncodedIsFirst(cs[0], EncodeAll(cs[1..]));
      assert s[CharLen(s)..] == EncodeAll(cs[1..]);
    }
  }

  lemma Rejoined(c: nat)
    ensures c == c / 0x40000 * 0x40000 + c / 0x1000 % 0x40 * 0x1000 + c / 0x40 % 0x40 * 0x40 + c % 0x40
    ensures c == c / 0x1000 * 0x1000 + c / 0x40 % 0x40 * 0x40 + c % 0x40
    ensures c == c / 0x40 * 0x40 + c % 0x40
  {
  }

  lemma EncodeInjective(a: Scalar, b: Scalar)
    requires Encode(a) == Encode(b)
    ensures a == b
  {
    Rejoined(a);
    Rejoined(b);
  }

  /** … and of one only. */
  lemma {:induction false} EncodingUnique(a: seq<Scalar>, b: seq<Scalar>)
    requires EncodeAll(a) == EncodeAll(b)
    ensures a == b
  {
    if a != [] {
      EncodedIsFirst(a[0], EncodeAll(a[1..]));
    }
    if b != [] {
      EncodedIsFirst(b[0], EncodeAll(b[1..]));
    }
    if a != [] && b != [] {
      var s, n := EncodeAll(a), |Encode(a[0])|;
      assert s[..n] == Encode(a[0]) && s[..n] == Encode(b[0]);
      assert s[n..] == EncodeAll(a[1..]) && s[n..] == EncodeAll(b[1..]);
      EncodeInjective(a[0], b[0]);
      EncodingUnique(a[1..], b[1..]);
    }
  }

  /** `str::is_char_boundary`. */
  predicate IsBoundary(s: Text, k: nat)
    requires k <= |s|
  {
    k == 0 || k == |s| || !Continuation(s[k])
  }

  /** No boundary lies inside the first character. */
  lemma NoBoundaryInside(s: Text, k: nat)
    requires 0 < CharLen(s) && 0 < k <= |s| && IsBoundary(s, k)
    ensures CharLen(s) <= k
  {
  }

  /** A text cut at a boundary is two texts. */
  lemma {:induction false} CutAtBoundary(s: Text, k: nat)
    requires WellFormed(s) && k <= |s| && IsBoundary(s, k)
    ensures WellFormed(s[..k]) && WellFormed(s[k..])
    decreases |s|
  {
    if k == 0 {
      assert s[0..] == s;
    } else {
      var n := CharLen(s);
      NoBoundaryInside(s, k);
      if k < |s| {
        assert s[n..][k - n] == s[k];
      }
      CutAtBoundary(s[n..], k - n);
      assert s[n..][k - n..] == s[k..];
      SameFirstChar(s, k);
    }
  }

  /** A prefix that holds the first character begins with it. */
  lemma SameFirstChar(s: Text, k: nat)
    requires 0 < CharLen(s) <= k <= |s|
    ensures CharLen(s[..k]) == CharLen(s) && s[..k][CharLen(s)..] == s[CharLen(s)..][..k - CharLen(s)]
  {
  }

  /** No boundary is further than three bytes away. */
  lemma {:induction false} BoundaryNear(s: Text, k: nat)
    requires WellFormed(s) && k <= |s|
    ensures exists j {:trigger IsBoundary(s, j)} :: k <= j <= k + 3 && j <= |s| && IsBoundary(s, j)
    decreases |s|
  {
    if k == 0 || k == |s| {
      assert IsBoundary(s, k);
    } else {
      var n := CharLen(s);
      if k < n {
        assert n < |s| ==> CharLen(s[n..]) > 0 && s[n..][0] == s[n];
        assert IsBoundary(s, n);
      } else {
        BoundaryNear(s[n..], k - n);
        var j :| k - n <= j <= k - n + 3 && j <= |s[n..]| && IsBoundary(s[n..], j);
        if j == 0 && n < |s| {
          assert CharLen(s[n..]) > 0 && s[n..][0] == s[n];
        }
        assert j < |s[n..]| ==> s[n..][j] == s[n + j];
        assert IsBoundary(s, n + j);
      }
    }
  }
}
