/** Byte strings. Every text of the model is a `string` whose characters stand for single bytes
    (UTF-8 text is the string of its bytes), so that an index is a byte offset as in the source. */
module Texts {

  /** The byte-wise order: what `memcmp` and SQLite's BINARY collation compute. */
  predicate Less(a: string, b: string) {
    if a == [] then b != []
    else b != [] && (a[0] < b[0] || (a[0] == b[0] && Less(a[1..], b[1..])))
  }

  /** Of two strings that start with parts of equal length, the parts decide unless they are equal. */
  lemma {:induction false} LessByParts(a: string, b: string, x: string, y: string)
    requires |a| == |b|
    ensures Less(a + x, b + y) <==> Less(a, b) || (a == b && Less(x, y))
  {
    if a == [] {
      assert a + x == x && b + y == y;
    } else {
      assert (a + x)[1..] == a[1..] + x && (b + y)[1..] == b[1..] + y;
      assert a == b <==> a[0] == b[0] && a[1..] == b[1..] by {
        assert a == [a[0]] + a[1..] && b == [b[0]] + b[1..];
      }
      LessByParts(a[1..], b[1..], x, y);
    }
  }

  lemma {:induction false} LessIsTotal(a: string, b: string)
    ensures Less(a, b) || a == b || Less(b, a)
    ensures !(Less(a, b) && Less(b, a))
  {
    if a != [] && b != [] {
      LessIsTotal(a[1..], b[1..]);
      assert a == [a[0]] + a[1..] && b == [b[0]] + b[1..];
    }
  }

  lemma {:induction false} LessIsTransitive(a: string, b: string, c: string)
    requires Less(a, b) && Less(b, c)
    ensures Less(a, c)
  {
    if a != [] && a[0] == b[0] == c[0] {
      LessIsTransitive(a[1..], b[1..], c[1..]);
    }
  }

  // ----- Lines -----

  predicate NoNewline(s: string) {
    forall i :: 0 <= i < |s| ==> s[i] != '\n'
  }

  /** The index of the first newline, or the length where there is none. */
  function FirstNewline(s: string): (n: nat)
    ensures n <= |s|
    ensures n < |s| ==> s[n] == '\n'
  {
    if s == [] || s[0] == '\n' then 0 else 1 + FirstNewline(s[1..])
  }

  lemma {:induction false} BeforeFirstNewline(s: string)
    ensures NoNewline(s[..FirstNewline(s)])
  {
    if s != [] && s[0] != '\n' {
      BeforeFirstNewline(s[1..]);
      assert s[..FirstNewline(s)] == [s[0]] + s[1..][..FirstNewline(s[1..])];
    }
  }

  lemma {:induction false} FirstNewlineAfter(t: string, s: string)
    requires NoNewline(t) && t <= s && (|t| < |s| ==> s[|t|] == '\n')
    ensures FirstNewline(s) == |t|
  {
    if t != [] {
      FirstNewlineAfter(t[1..], s[1..]);
    }
  }

  /** Without one trailing carriage return. */
  function StripCr(line: string): string {
    if line != [] && line[|line| - 1] == '\r' then line[..|line| - 1] else line
  }

  // ----- Texts as lists of lines -----

  /** `data` cut at its newlines. */
  function Split(data: string): (lines: seq<string>)
    ensures |lines| > 0
    decreases |data|
  {
    var n := FirstNewline(data);
    if n == |data| then [data] else [data[..n]] + Split(data[n + 1..])
  }

  lemma {:induction false} SplitGivesLines(data: string)
    ensures forall i :: 0 <= i < |Split(data)| ==> NoNewline(Split(data)[i])
    decreases |data|
  {
    hide NoNewline;
    var n := FirstNewline(data);
    BeforeFirstNewline(data);
    if n == |data| {
      assert data[..n] == data;
    } else {
      SplitGivesLines(data[n + 1..]);
    }
  }

  function Join(parts: seq<string>): string
    requires parts != []
  {
    if |parts| == 1 then parts[0] else parts[0] + "\n" + Join(parts[1..])
  }

  lemma JoinFirst(line: string, rest: seq<string>)
    ensures Join([line]) == line
    ensures rest != [] ==> Join([line] + rest) == line + "\n" + Join(rest)
  {
    assert ([line] + rest)[1..] == rest;
  }

  lemma SplitFirst(data: string)
    ensures var n := FirstNewline(data);
            Split(data) == if n == |data| then [data] else [data[..n]] + Split(data[n + 1..])
  {
    hide FirstNewline;
  }

  lemma {:induction false} SplitThenJoin(data: string)
    ensures Join(Split(data)) == data
    decreases |data|
  {
    hide *;
    var n := FirstNewline(data);
    SplitFirst(data);
    if n == |data| {
      JoinFirst(data, []);
    } else {
      SplitThenJoin(data[n + 1..]);
      JoinFirst(data[..n], Split(data[n + 1..]));
      assert data == data[..n] + "\n" + data[n + 1..];
    }
  }

  lemma {:induction false} JoinThen(a: seq<string>, b: seq<string>)
    requires a != [] && b != []
    ensures Join(a + b) == Join(a) + "\n" + Join(b)
    decreases |a|
  {
    if |a| == 1 {
      assert a == [a[0]];
      JoinFirst(a[0], b);
    } else {
      assert (a + b)[1..] == a[1..] + b;
      JoinThen(a[1..], b);
    }
  }

  /** Cutting undoes joining, for any lines. */
  lemma {:induction false} JoinThenSplit(lines: seq<string>)
    requires lines != [] && forall i :: 0 <= i < |lines| ==> NoNewline(lines[i])
    ensures Split(Join(lines)) == lines
    decreases |lines|
  {
    hide Split;
    var s := Join(lines);
    SplitFirst(s);
    FirstNewlineAfter(lines[0], s);
    if |lines| > 1 {
      JoinThenSplit(lines[1..]);
      assert s[..|lines[0]|] == lines[0] && s[|lines[0]| + 1..] == Join(lines[1..]);
    }
  }
}
