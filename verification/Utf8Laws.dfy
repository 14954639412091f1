/** Which byte strings count as UTF-8, which characters as white space, and what trimming leaves. */
module Utf8Laws {
  import opened JsonText
  import opened Utf8

  // ----- Well-formed texts -----

  /** A Unicode scalar value: a code point that is no surrogate. */
  predicate Scalar(n: nat) {
    n < 0xD800 || 0xE000 <= n < 0x11_0000
  }

  predicate Scalars(points: seq<nat>) {
    forall i :: 0 <= i < |points| ==> Scalar(points[i])
  }

  function Encoded(points: seq<nat>): string
    requires Scalars(points)
  {
    if points == [] then [] else Utf8Encode(points[0]) + Encoded(points[1..])
  }

  lemma SequenceOfThree(a: nat, b: nat, c: nat, rest: string)
    requires a < 16 && b < 0x40 && c < 0x40 && (a == 0 ==> b >= 0x20) && (a == 13 ==> b < 0x20)
    ensures SequenceLength([(0xE0 + a) as char, (0x80 + b) as char, (0x80 + c) as char] + rest) == 3
  {
  }

  lemma SequenceOfFour(a: nat, b: nat, c: nat, d: nat, rest: string)
    requires a < 5 && b < 0x40 && c < 0x40 && d < 0x40 && (a == 0 ==> b >= 0x10) && (a == 4 ==> b < 0x10)
    ensures SequenceLength([(0xF0 + a) as char, (0x80 + b) as char, (0x80 + c) as char, (0x80 + d) as char] + rest) == 4
  {
  }

  /** The bits of a code point in groups of six. */
  lemma Sixes(n: nat)
    ensures n == 0x4_0000 * (n / 0x4_0000) + 0x1000 * (n / 0x1000 % 0x40) + 0x40 * (n / 0x40 % 0x40) + n % 0x40
    ensures n / 0x1000 < 0x40 ==> n / 0x4_0000 == 0 && n / 0x1000 % 0x40 == n / 0x1000
  {
    assert n == 0x40 * (n / 0x40) + n % 0x40;
    assert n / 0x40 == 0x40 * (n / 0x1000) + n / 0x40 % 0x40;
    assert n / 0x1000 == 0x40 * (n / 0x4_0000) + n / 0x1000 % 0x40;
  }

  lemma EncodedIsSequence(n: nat, rest: string)
    requires Scalar(n)
    ensures SequenceLength(Utf8Encode(n) + rest) == |Utf8Encode(n)|
  {
    hide SequenceLength;
    Sixes(n);
    if n < 0x80 {
      SequenceOfOne(n, rest);
    } else if n < 0x800 {
      SequenceOfTwo(n / 0x40, n % 0x40, rest);
    } else if n < 0x1_0000 {
      SequenceOfThree(n / 0x1000, n / 0x40 % 0x40, n % 0x40, rest);
    } else {
      SequenceOfFour(n / 0x4_0000, n / 0x1000 % 0x40, n / 0x40 % 0x40, n % 0x40, rest);
    }
  }

  lemma SequenceOfOne(a: nat, rest: string)
    requires a < 0x80
    ensures SequenceLength([a as char] + rest) == 1
  {
  }

  lemma SequenceOfTwo(a: nat, b: nat, rest: string)
    requires 2 <= a < 0x20 && b < 0x40
    ensures SequenceLength([(0xC0 + a) as char, (0x80 + b) as char] + rest) == 2
  {
  }

  lemma Two(a: nat, b: nat)
    requires 2 <= a < 0x20 && b < 0x40
    ensures var n := 0x40 * a + b;
            Scalar(n) && Utf8Encode(n) == [(0xC0 + a) as char, (0x80 + b) as char]
  {
    var n := 0x40 * a + b;
    assert n / 0x40 == a && n % 0x40 == b;
  }

  lemma Three(a: nat, b: nat, c: nat)
    requires a < 16 && b < 0x40 && c < 0x40 && (a == 0 ==> b >= 0x20) && (a == 13 ==> b < 0x20)
    ensures var n := 0x1000 * a + 0x40 * b + c;
            Scalar(n) && Utf8Encode(n) == [(0xE0 + a) as char, (0x80 + b) as char, (0x80 + c) as char]
  {
    var n := 0x1000 * a + 0x40 * b + c;
    assert n / 0x1000 == a && n / 0x40 == 0x40 * a + b && n % 0x40 == c;
    assert (0x40 * a + b) % 0x40 == b;
  }

  lemma Four(a: nat, b: nat, c: nat, d: nat)
    requires a < 5 && b < 0x40 && c < 0x40 && d < 0x40 && (a == 0 ==> b >= 0x10) && (a == 4 ==> b < 0x10)
    ensures var n := 0x4_0000 * a + 0x1000 * b + 0x40 * c + d;
            && Scalar(n)
            && Utf8Encode(n) == [(0xF0 + a) as char, (0x80 + b) as char, (0x80 + c) as char, (0x80 + d) as char]
  {
    var n := 0x4_0000 * a + 0x1000 * b + 0x40 * c + d;
    assert n / 0x4_0000 == a && n / 0x1000 == 0x40 * a + b && n / 0x40 == 0x1000 * a + 0x40 * b + c && n % 0x40 == d;
    assert (0x40 * a + b) % 0x40 == b && (0x1000 * a + 0x40 * b + c) % 0x40 == c;
  }

  /** A well-formed sequence encodes a scalar value. */
  lemma SequenceIsEncoded(s: string) returns (n: nat)
    requires SequenceLength(s) > 0
    ensures Scalar(n) && Utf8Encode(n) == s[..SequenceLength(s)]
  {
    var k := SequenceLength(s);
    if k == 1 {
      n := s[0] as nat;
      assert s[..1] == [s[0]];
    } else if k == 2 {
      var a, b := s[0] as nat - 0xC0, s[1] as nat - 0x80;
      n := 0x40 * a + b;
      Two(a, b);
    } else if k == 3 {
      var a, b, c := s[0] as nat - 0xE0, s[1] as nat - 0x80, s[2] as nat - 0x80;
      n := 0x1000 * a + 0x40 * b + c;
      Three(a, b, c);
    } else {
      var a, b, c, d := s[0] as nat - 0xF0, s[1] as nat - 0x80, s[2] as nat - 0x80, s[3] as nat - 0x80;
      n := 0x4_0000 * a + 0x1000 * b + 0x40 * c + d;
      Four(a, b, c, d);
    }
  }

  lemma {:induction false} EncodedIsValid(points: seq<nat>)
    requires Scalars(points)
    ensures Valid(Encoded(points))
  {
    hide Utf8Encode, SequenceLength;
    if points != [] {
      EncodedIsValid(points[1..]);
      EncodedIsSequence(points[0], Encoded(points[1..]));
      EncodedIsSequence(points[0], []);
      var e := Utf8Encode(points[0]);
      assert e + [] == e && (e + Encoded(points[1..]))[|e|..] == Encoded(points[1..]);
      EncodedIsSome(points[0]);
    }
  }

  lemma EncodedIsSome(n: nat)
    requires n < 0x11_0000
    ensures Utf8Encode(n) != []
  {
  }

  lemma {:induction false} ValidIsEncoded(s: string) returns (points: seq<nat>)
    requires Valid(s)
    ensures Scalars(points) && Encoded(points) == s
    decreases |s|
  {
    hide Utf8Encode, SequenceLength;
    if s == [] {
      points := [];
    } else {
      var k := SequenceLength(s);
      var n := SequenceIsEncoded(s);
      var more := ValidIsEncoded(s[k..]);
      points := [n] + more;
      assert points[1..] == more && s == s[..k] + s[k..];
    }
  }

  /** A byte string is valid exactly when it encodes a list of scalar values. */
  lemma ValidExactly(s: string)
    ensures Valid(s) <==> exists points :: Scalars(points) && Encoded(points) == s
  {
    hide Valid, Encoded;
    if Valid(s) {
      var points := ValidIsEncoded(s);
    }
    forall points | Scalars(points)
      ensures Valid(Encoded(points))
    {
      EncodedIsValid(points);
    }
  }

  // ----- White space -----

  /** The code points with the property White_Space of the Unicode Character Database. */
  predicate WhiteSpace(c: nat) {
    || 0x09 <= c <= 0x0D || c == 0x20 || c == 0x85 || c == 0xA0 || c == 0x1680
    || 0x2000 <= c <= 0x200A || c == 0x2028 || c == 0x2029 || c == 0x202F || c == 0x205F || c == 0x3000
  }

  lemma SpaceIsEncoded(c: nat, rest: string)
    requires WhiteSpace(c)
    ensures SpaceAt(Utf8Encode(c) + rest) == |Utf8Encode(c)| > 0
  {
    var s := Utf8Encode(c) + rest;
    if 0x2000 <= c <= 0x200A {
      assert c / 0x1000 == 2 && c / 0x40 == 0x80 && c % 0x40 == c - 0x2000;
    }
  }

  lemma SpaceHasPoint(s: string) returns (c: nat)
    requires SpaceAt(s) > 0
    ensures WhiteSpace(c) && Utf8Encode(c) == s[..SpaceAt(s)]
  {
    var k := SpaceAt(s);
    if k == 1 {
      c := s[0] as nat;
      assert s[..1] == [s[0]];
    } else if k == 2 {
      c := 0x80 + (s[1] as nat - 0x80);
      Two(2, s[1] as nat - 0x80);
    } else {
      var a, b, d := s[0] as nat - 0xE0, s[1] as nat - 0x80, s[2] as nat - 0x80;
      c := 0x1000 * a + 0x40 * b + d;
      Three(a, b, d);
    }
  }

  predicate Spaces(points: seq<nat>) {
    Scalars(points) && forall i :: 0 <= i < |points| ==> WhiteSpace(points[i])
  }

  /** Texts of white space alone. */
  ghost predicate AllSpace(s: string) {
    exists points :: Spaces(points) && Encoded(points) == s
  }

  lemma NothingIsSpace()
    ensures AllSpace([])
  {
    assert Spaces([]) && Encoded([]) == [];
  }

  lemma SpaceThen(c: nat, more: string)
    requires WhiteSpace(c) && AllSpace(more)
    ensures AllSpace(Utf8Encode(c) + more) && AllSpace(more + Utf8Encode(c))
  {
    hide Utf8Encode;
    var points :| Spaces(points) && Encoded(points) == more;
    SpaceIsScalar(c);
    OneEncoded(c);
    assert Spaces([c]);
    EncodedThen([c], points);
    EncodedThen(points, [c]);
    assert Spaces([c] + points) && Spaces(points + [c]);
  }

  /** The text starts, or ends, with a white-space character. */
  ghost predicate StartsWithSpace(s: string) {
    exists c: nat :: WhiteSpace(c) && Utf8Encode(c) <= s
  }

  ghost predicate EndsWithSpace(s: string) {
    exists c: nat :: WhiteSpace(c) && Ends(s, Utf8Encode(c))
  }

  predicate Ends(s: string, e: string) {
    |e| <= |s| && s[|s| - |e|..] == e
  }

  lemma StartExactly(s: string)
    ensures StartsWithSpace(s) <==> SpaceAt(s) > 0
  {
    hide Utf8Encode, SpaceAt;
    if SpaceAt(s) > 0 {
      var c := SpaceHasPoint(s);
    }
    if c: nat :| WhiteSpace(c) && Utf8Encode(c) <= s {
      var e := Utf8Encode(c);
      SpaceIsEncoded(c, s[|e|..]);
      assert s == e + s[|e|..];
    }
  }

  lemma SpaceAtEnd(s: string, c: nat)
    requires WhiteSpace(c) && Ends(s, Utf8Encode(c))
    ensures SpaceBefore(s) > 0
  {
    hide SpaceAt, SpaceBefore, Utf8Encode, Ends;
    var e := Utf8Encode(c);
    SpaceIsEncoded(c, []);
    assert e + [] == e;
    SpaceLength(e);
    SpaceInFront(s, e);
  }

  lemma SpaceInFront(s: string, e: string)
    requires Ends(s, e) && SpaceAt(e) == |e| && 0 < |e| <= 3
    ensures SpaceBefore(s) > 0
  {
    hide SpaceAt;
    var k := |e|;
    assert k <= |s| && s[|s| - k..] == e;
    if k == 1 {
      assert SpaceAt(s[|s| - 1..]) == 1;
    } else if k == 2 {
      assert SpaceAt(s[|s| - 2..]) == 2;
    } else {
      assert SpaceAt(s[|s| - 3..]) == 3;
    }
  }

  lemma EndOfSpace(s: string) returns (c: nat)
    requires SpaceBefore(s) > 0
    ensures WhiteSpace(c) && s[|s| - SpaceBefore(s)..] == Utf8Encode(c) && Ends(s, Utf8Encode(c))
  {
    hide Utf8Encode, SpaceAt;
    var n := SpaceBefore(s);
    var tail := s[|s| - n..];
    assert SpaceAt(tail) == n;
    c := SpaceHasPoint(tail);
    assert tail[..n] == tail;
  }

  lemma EndExactly(s: string)
    ensures EndsWithSpace(s) <==> SpaceBefore(s) > 0
  {
    hide Utf8Encode, SpaceBefore, Ends;
    if SpaceBefore(s) > 0 {
      var c := EndOfSpace(s);
    }
    forall c: nat | WhiteSpace(c) && Ends(s, Utf8Encode(c))
      ensures SpaceBefore(s) > 0
    {
      SpaceAtEnd(s, c);
    }
  }

  lemma SpaceLength(s: string)
    ensures SpaceAt(s) <= 3
  {
  }

  lemma {:induction false} TrimStartIs(s: string) returns (before: string)
    ensures s == before + TrimStart(s) && AllSpace(before) && !StartsWithSpace(TrimStart(s))
    decreases |s|
  {
    hide Utf8Encode, SpaceAt, AllSpace, StartsWithSpace, WhiteSpace;
    StartExactly(s);
    var k := SpaceAt(s);
    if k == 0 {
      before := [];
      NothingIsSpace();
    } else {
      var more := TrimStartIs(s[k..]);
      var c := SpaceHasPoint(s);
      before := s[..k] + more;
      SpaceThen(c, more);
      assert s == s[..k] + s[k..];
    }
  }

  lemma SpaceIsScalar(c: nat)
    requires WhiteSpace(c)
    ensures Scalar(c)
  {
  }

  lemma {:induction false} EncodedThen(a: seq<nat>, b: seq<nat>)
    requires Scalars(a) && Scalars(b)
    ensures Scalars(a + b) && Encoded(a + b) == Encoded(a) + Encoded(b)
  {
    hide Utf8Encode;
    if a == [] {
      assert a + b == b;
    } else {
      EncodedThen(a[1..], b);
      assert (a + b)[1..] == a[1..] + b;
    }
  }

  lemma {:induction false} TrimEndIs(s: string) returns (after: string)
    ensures s == TrimEnd(s) + after && AllSpace(after) && !EndsWithSpace(TrimEnd(s))
    decreases |s|
  {
    hide Utf8Encode, SpaceBefore, AllSpace, EndsWithSpace, WhiteSpace, Ends;
    EndExactly(s);
    var n := SpaceBefore(s);
    if n == 0 {
      after := [];
      NothingIsSpace();
    } else {
      var m := |s| - n;
      var more := TrimEndIs(s[..m]);
      var c := EndOfSpace(s);
      after := more + s[m..];
      SpaceThen(c, more);
      assert s == s[..m] + s[m..];
    }
  }

  lemma OneEncoded(c: nat)
    requires Scalar(c)
    ensures Scalars([c]) && Encoded([c]) == Utf8Encode(c)
  {
    hide Utf8Encode;
    assert [c][1..] == [];
  }

  lemma StartOfStart(s: string, t: string)
    requires t <= s && StartsWithSpace(t)
    ensures StartsWithSpace(s)
  {
  }

  /** Trimming takes white space from both ends, and leaves none there. */
  lemma TrimExactly(s: string) returns (before: string, after: string)
    ensures s == before + Trim(s) + after && AllSpace(before) && AllSpace(after)
    ensures !StartsWithSpace(Trim(s)) && !EndsWithSpace(Trim(s))
  {
    hide StartsWithSpace, EndsWithSpace, AllSpace;
    before := TrimStartIs(s);
    after := TrimEndIs(TrimStart(s));
    if StartsWithSpace(Trim(s)) {
      StartOfStart(TrimStart(s), Trim(s));
    }
  }
}
