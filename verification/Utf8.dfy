/** Well-formed UTF-8 (RFC 3629 section 4) and Unicode white space, on byte strings. */
module Utf8 {

  predicate Byte(s: string, i: nat, low: int, high: int) {
    i < |s| && low <= s[i] as int <= high
  }

  /** Length of the well-formed sequence at the start of `s`, or 0 if there is none. */
  function SequenceLength(s: string): (n: nat)
    ensures n <= 4 && n <= |s|
  {
    if Byte(s, 0, 0x00, 0x7F) then 1
    else if Byte(s, 0, 0xC2, 0xDF) && Byte(s, 1, 0x80, 0xBF) then 2
    else if
      && (|| (Byte(s, 0, 0xE0, 0xE0) && Byte(s, 1, 0xA0, 0xBF))
          || (Byte(s, 0, 0xE1, 0xEC) && Byte(s, 1, 0x80, 0xBF))
          || (Byte(s, 0, 0xED, 0xED) && Byte(s, 1, 0x80, 0x9F))
          || (Byte(s, 0, 0xEE, 0xEF) && Byte(s, 1, 0x80, 0xBF)))
      && Byte(s, 2, 0x80, 0xBF) then 3
    else if
      && (|| (Byte(s, 0, 0xF0, 0xF0) && Byte(s, 1, 0x90, 0xBF))
          || (Byte(s, 0, 0xF1, 0xF3) && Byte(s, 1, 0x80, 0xBF))
          || (Byte(s, 0, 0xF4, 0xF4) && Byte(s, 1, 0x80, 0x8F)))
      && Byte(s, 2, 0x80, 0xBF) && Byte(s, 3, 0x80, 0xBF) then 4
    else 0
  }

  predicate Valid(s: string)
    decreases |s|
  {
    s == [] || (SequenceLength(s) > 0 && Valid(s[SequenceLength(s)..]))
  }

  lemma {:induction false} ValidThen(a: string, b: string)
    requires Valid(a)
    ensures Valid(a + b) <==> Valid(b)
    decreases |a|
  {
    if a == [] {
      assert a + b == b;
    } else {
      var n := SequenceLength(a);
      assert SequenceLength(a + b) == n;
      assert (a + b)[n..] == a[n..] + b;
      ValidThen(a[n..], b);
    }
  }

  predicate Ascii(s: string) {
    forall i :: 0 <= i < |s| ==> s[i] as int < 0x80
  }

  lemma {:induction false} AsciiIsValid(s: string)
    requires Ascii(s)
    ensures Valid(s)
    decreases |s|
  {
    if s != [] {
      assert SequenceLength(s) == 1;
      AsciiIsValid(s[1..]);
    }
  }

  /** The first character: one ASCII byte, or only bytes above ASCII. */
  lemma FirstSequence(s: string)
    requires s != [] && Valid(s)
    ensures var n := SequenceLength(s);
            && n > 0 && Valid(s[..n])
            && if n == 1 then s[0] as int < 0x80 else forall i :: 0 <= i < n ==> s[i] as int >= 0x80
  {
    var n := SequenceLength(s);
    assert SequenceLength(s[..n]) == n;
  }

  // ----- White space -----

  /** Length of the white-space character at the start of `s`, or 0. */
  function SpaceAt(s: string): (n: nat)
    ensures n <= |s|
  {
    if Byte(s, 0, 0x09, 0x0D) || Byte(s, 0, 0x20, 0x20) then 1
    else if Byte(s, 0, 0xC2, 0xC2) && (Byte(s, 1, 0x85, 0x85) || Byte(s, 1, 0xA0, 0xA0)) then 2
    else if
      || (Byte(s, 0, 0xE1, 0xE1) && Byte(s, 1, 0x9A, 0x9A) && Byte(s, 2, 0x80, 0x80))
      || (Byte(s, 0, 0xE2, 0xE2) && Byte(s, 1, 0x80, 0x80) &&
          (Byte(s, 2, 0x80, 0x8A) || Byte(s, 2, 0xA8, 0xA9) || Byte(s, 2, 0xAF, 0xAF)))
      || (Byte(s, 0, 0xE2, 0xE2) && Byte(s, 1, 0x81, 0x81) && Byte(s, 2, 0x9F, 0x9F))
      || (Byte(s, 0, 0xE3, 0xE3) && Byte(s, 1, 0x80, 0x80) && Byte(s, 2, 0x80, 0x80)) then 3
    else 0
  }

  /** Length of the white-space character at the end of `s`, or 0. */
  function SpaceBefore(s: string): (n: nat)
    ensures n <= |s|
  {
    if |s| >= 1 && SpaceAt(s[|s| - 1..]) == 1 then 1
    else if |s| >= 2 && SpaceAt(s[|s| - 2..]) == 2 then 2
    else if |s| >= 3 && SpaceAt(s[|s| - 3..]) == 3 then 3
    else 0
  }

  function TrimStart(s: string): (r: string)
    ensures |r| <= |s|
    decreases |s|
  {
    if SpaceAt(s) > 0 then TrimStart(s[SpaceAt(s)..]) else s
  }

  /** What is left is the start of `s`. */
  function TrimEnd(s: string): (r: string)
    ensures r <= s
    decreases |s|
  {
    if SpaceBefore(s) > 0 then TrimEnd(s[..|s| - SpaceBefore(s)]) else s
  }

  function Trim(s: string): string {
    TrimEnd(TrimStart(s))
  }

  /** A printable ASCII character: no white space, and no byte of a longer character. */
  predicate Visible(c: char) { '!' <= c <= '~' }

  lemma {:induction false} TrimEndKeepsVisible(s: string, i: nat)
    requires i < |s| && Visible(s[i])
    ensures i < |TrimEnd(s)|
    decreases |s|
  {
    hide SpaceBefore, Visible;
    var n := SpaceBefore(s);
    if n > 0 {
      SpaceIsNotVisible(s, i);
      TrimEndKeepsVisible(s[..|s| - n], i);
    }
  }

  lemma SpaceIsNotVisible(s: string, i: nat)
    requires i < |s| && Visible(s[i])
    ensures i < |s| - SpaceBefore(s)
  {
    var n := SpaceBefore(s);
    if n > 0 {
      var tail := s[|s| - n..];
      SpaceBytes(tail);
      assert SpaceAt(tail) == n;
      assert forall k :: 0 <= k < n ==> tail[k] == s[|s| - n + k];
    }
  }

  lemma SpaceBytes(s: string)
    ensures forall i :: 0 <= i < SpaceAt(s) ==> !Visible(s[i])
  {
  }

  lemma TrimVisibleEnds(s: string)
    requires s != [] && Visible(s[0]) && Visible(s[|s| - 1])
    ensures Trim(s) == s
  {
    TrimEndKeepsVisible(s, |s| - 1);
  }
}
