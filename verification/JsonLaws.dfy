/** Two facts about the parser: more input does not change what has been parsed, and printed
    values parse back. Together they make the printed objects a prefix-free code. */
module JsonLaws {
  import opened Json
  import opened JsonText
  import opened Texts
  import opened Wrappers

  // ----- More input does not change what has been parsed -----

  lemma {:induction false} SkipSpaceThen(s: string, q: string)
    requires SkipSpace(s) != []
    ensures SkipSpace(s + q) == SkipSpace(s) + q
  {
    if IsSpace(s[0]) {
      assert (s + q)[1..] == s[1..] + q;
      SkipSpaceThen(s[1..], q);
    }
  }

  lemma {:induction false} DigitRunThen(s: string, q: string)
    ensures DigitRun(s + q) == if DigitRun(s) < |s| then DigitRun(s) else |s| + DigitRun(q)
  {
    if s == [] {
      assert s + q == q;
    } else {
      assert (s + q)[1..] == s[1..] + q;
      DigitRunThen(s[1..], q);
    }
  }

  /** A character that may belong to a number. */
  predicate InNumber(c: char) {
    IsDigit(c) || c == '.' || c == 'e' || c == 'E' || c == '+' || c == '-'
  }

  /** `q` does not continue a number that takes the first `n` characters of `s`. */
  predicate NumberEnds(s: string, n: nat, q: string) {
    n < |s| || q == [] || !InNumber(q[0])
  }

  lemma IntegerPartThen(s: string, q: string)
    requires IntegerPart(s).Some? && NumberEnds(s, IntegerPart(s).value, q)
    ensures IntegerPart(s + q) == IntegerPart(s)
  {
    DigitRunThen(s, q);
  }

  lemma FractionPartThen(s: string, q: string)
    requires FractionPart(s).Some? && NumberEnds(s, FractionPart(s).value, q)
    ensures FractionPart(s + q) == FractionPart(s)
  {
    if s == [] {
      assert s + q == q;
    } else if s[0] == '.' {
      assert (s + q)[1..] == s[1..] + q;
      DigitRunThen(s[1..], q);
    }
  }

  lemma ExponentPartThen(s: string, q: string)
    requires ExponentPart(s).Some? && NumberEnds(s, ExponentPart(s).value, q)
    ensures ExponentPart(s + q) == ExponentPart(s)
  {
    if s == [] {
      assert s + q == q;
    } else if s[0] == 'e' || s[0] == 'E' {
      var sign := if |s| > 1 && (s[1] == '+' || s[1] == '-') then 2 else 1;
      assert (s + q)[sign..] == s[sign..] + q;
      DigitRunThen(s[sign..], q);
    }
  }

  lemma TailPartThen(s: string, q: string)
    requires TailPart(s).Some? && NumberEnds(s, TailPart(s).value, q)
    ensures TailPart(s + q) == TailPart(s)
  {
    hide FractionPart, ExponentPart;
    FractionPartThen(s, q);
    var b := FractionPart(s).value;
    assert (s + q)[b..] == s[b..] + q;
    ExponentPartThen(s[b..], q);
  }

  lemma UnsignedPartThen(s: string, q: string)
    requires UnsignedPart(s).Some? && NumberEnds(s, UnsignedPart(s).value, q)
    ensures UnsignedPart(s + q) == UnsignedPart(s)
  {
    hide IntegerPart, TailPart;
    IntegerPartThen(s, q);
    var a := IntegerPart(s).value;
    assert (s + q)[a..] == s[a..] + q;
    TailPartThen(s[a..], q);
  }

  lemma NumberLengthThen(s: string, q: string)
    requires NumberLength(s).Some? && NumberEnds(s, NumberLength(s).value, q)
    ensures NumberLength(s + q) == NumberLength(s)
  {
    hide UnsignedPart;
    if s[0] == '-' {
      assert (s + q)[1..] == s[1..] + q;
      UnsignedPartThen(s[1..], q);
    } else {
      UnsignedPartThen(s, q);
    }
  }

  lemma Hex4Then(s: string, q: string)
    requires Hex4(s).Some?
    ensures Hex4(s + q) == Hex4(s)
  {
  }

  lemma UnicodeEscapeThen(s: string, q: string)
    requires UnicodeEscape(s).Done?
    ensures UnicodeEscape(s + q) == Done(UnicodeEscape(s).value, UnicodeEscape(s).rest + q)
  {
    Hex4Then(s, q);
    assert (s + q)[4..] == s[4..] + q;
    if |s| >= 10 && s[4] == '\\' && s[5] == 'u' {
      assert (s + q)[6..] == s[6..] + q && (s + q)[10..] == s[10..] + q;
      if Hex4(s[6..]).Some? {
        Hex4Then(s[6..], q);
      }
    }
  }

  lemma EscapeSequenceThen(s: string, q: string)
    requires EscapeSequence(s).Done?
    ensures EscapeSequence(s + q) == Done(EscapeSequence(s).value, EscapeSequence(s).rest + q)
  {
    assert (s + q)[1..] == s[1..] + q;
    if s[0] == 'u' {
      UnicodeEscapeThen(s[1..], q);
    }
  }

  lemma {:induction false} ParseStringThen(s: string, q: string)
    requires ParseString(s).Done?
    ensures ParseString(s + q) == Done(ParseString(s).value, ParseString(s).rest + q)
    decreases |s|
  {
    assert (s + q)[1..] == s[1..] + q;
    if s[0] == '\\' {
      EscapeSequenceThen(s[1..], q);
      ParseStringThen(EscapeSequence(s[1..]).rest, q);
    } else if s[0] != '\"' {
      ParseStringThen(s[1..], q);
    }
  }

  lemma ParseWordThen(s: string, word: string, v: Value, q: string)
    requires ParseWord(s, word, v).Done?
    ensures ParseWord(s, word, v).value == v
    ensures ParseWord(s + q, word, v) == Done(v, ParseWord(s, word, v).rest + q)
  {
    assert (s + q)[..|word|] == s[..|word|] == word;
    assert (s + q)[|word|..] == s[|word|..] + q;
  }

  lemma {:induction false} ParseValueThen(s: string, q: string, depth: nat)
    requires var r := ParseValue(s, depth); r.Done? && (r.value.Number? ==> NumberEnds(r.rest, 0, q))
    ensures ParseValue(s + q, depth) == Done(ParseValue(s, depth).value, ParseValue(s, depth).rest + q)
    decreases |s|, 2
  {
    hide ParseWord, ParseString, NumberLength, ParseItems, ParseMembers, SkipSpace;
    var t := SkipSpace(s);
    SkipSpaceThen(s, q);
    assert (t + q)[1..] == t[1..] + q;
    if t[0] == 'n' {
      ParseWordThen(t, "null", Null, q);
    } else if t[0] == 't' {
      ParseWordThen(t, "true", Bool(true), q);
    } else if t[0] == 'f' {
      ParseWordThen(t, "false", Bool(false), q);
    } else if t[0] == '\"' {
      ParseStringThen(t[1..], q);
    } else if t[0] == '[' {
      ParseItemsThen(t[1..], q, depth - 1, true);
    } else if t[0] == '{' {
      ParseMembersThen(t[1..], q, depth - 1, true);
    } else {
      var n := NumberLength(t).value;
      NumberLengthThen(t, q);
      assert (t + q)[..n] == t[..n] && (t + q)[n..] == t[n..] + q;
    }
  }

  lemma {:induction false} ParseItemsThen(s: string, q: string, depth: nat, first: bool)
    requires ParseItems(s, depth, first).Done?
    ensures ParseItems(s + q, depth, first) ==
              Done(ParseItems(s, depth, first).value, ParseItems(s, depth, first).rest + q)
    decreases |s|, 3
  {
    hide ParseValue, SkipSpace;
    var t := SkipSpace(s);
    SkipSpaceThen(s, q);
    assert (t + q)[1..] == t[1..] + q;
    if t[0] != ']' {
      var u := if first then t else t[1..];
      var item := ParseValue(u, depth);
      assert item.rest != [];
      ParseValueThen(u, q, depth);
      ParseItemsThen(item.rest, q, depth, false);
    }
  }

  lemma {:induction false} ParseMemberThen(s: string, q: string, depth: nat)
    requires var r := ParseMember(s, depth); r.Done? && r.rest != []
    ensures ParseMember(s + q, depth) == Done(ParseMember(s, depth).value, ParseMember(s, depth).rest + q)
    decreases |s|, 3
  {
    hide ParseString, ParseValue, SkipSpace;
    var t := SkipSpace(s);
    SkipSpaceThen(s, q);
    assert (t + q)[1..] == t[1..] + q;
    ParseStringThen(t[1..], q);
    var key := ParseString(t[1..]);
    var u := SkipSpace(key.rest);
    SkipSpaceThen(key.rest, q);
    assert (u + q)[1..] == u[1..] + q;
    ParseValueThen(u[1..], q, depth);
  }

  lemma {:induction false} ParseMembersThen(s: string, q: string, depth: nat, first: bool)
    requires ParseMembers(s, depth, first).Done?
    ensures ParseMembers(s + q, depth, first) ==
              Done(ParseMembers(s, depth, first).value, ParseMembers(s, depth, first).rest + q)
    decreases |s|, 4
  {
    var t := SkipSpace(s);
    SkipSpaceThen(s, q);
    assert (t + q)[1..] == t[1..] + q;
    if t[0] != '}' {
      var u := if first then t else t[1..];
      var m := ParseMember(u, depth);
      assert m.rest != [];
      ParseMemberThen(u, q, depth);
      ParseMembersThen(m.rest, q, depth, false);
    }
  }

  // ----- Printed values parse back -----

  predicate WellFormed(v: Value) {
    match v
    case Number(token) => IsNumberToken(token)
    case Array(items) => forall i :: 0 <= i < |items| ==> WellFormed(items[i])
    case Object(members) => forall i :: 0 <= i < |members| ==> WellFormed(members[i].value)
    case _ => true
  }

  function Max(a: nat, b: nat): nat { if a < b then b else a }

  /** How deep arrays and objects nest in a value. */
  function Nesting(v: Value): nat {
    match v
    case Array(items) => 1 + ItemsNesting(items)
    case Object(members) => 1 + MembersNesting(members)
    case _ => 0
  }

  function ItemsNesting(items: seq<Value>): nat {
    if items == [] then 0 else Max(Nesting(items[0]), ItemsNesting(items[1..]))
  }

  function MembersNesting(members: seq<Member>): nat {
    if members == [] then 0 else Max(Nesting(members[0].value), MembersNesting(members[1..]))
  }

  lemma HexDigitValue(n: nat)
    requires n < 16
    ensures HexValue(HexDigit(n)) == Some(n)
  {
    assert n in {0, 1, 2, 3, 4, 5, 6, 7, 8, 9, 10, 11, 12, 13, 14, 15};
  }

  lemma EscapedControl(c: char, rest: string)
    requires c < ' '
    ensures var s := "u00" + [HexDigit(c as nat / 16), HexDigit(c as nat % 16)] + rest;
            EscapeSequence(s) == Done([c], rest)
  {
    var hex := "00" + [HexDigit(c as nat / 16), HexDigit(c as nat % 16)];
    var s := "u" + hex + rest;
    HexDigitValue(c as nat / 16);
    HexDigitValue(c as nat % 16);
    assert s[1..] == hex + rest;
    assert Hex4(hex) == Some(c as nat);
    Hex4Then(hex, rest);
    assert (hex + rest)[4..] == rest;
    assert s == "u00" + [HexDigit(c as nat / 16), HexDigit(c as nat % 16)] + rest;
  }

  lemma EscapeReads(c: char, rest: string)
    requires EscapeByte(c) != [c]
    ensures EscapeByte(c)[0] == '\\'
    ensures EscapeSequence(EscapeByte(c)[1..] + rest) == Done([c], rest)
  {
    var e := EscapeByte(c)[1..];
    if |e| == 1 {
      assert (e + rest)[1..] == rest;
    } else {
      EscapedControl(c, rest);
      assert e == "u00" + [HexDigit(c as nat / 16), HexDigit(c as nat % 16)];
    }
  }

  /** An escaped byte reads as that byte. */
  lemma EscapedByte(c: char, rest: string)
    ensures ParseString(EscapeByte(c) + rest) ==
              var r := ParseString(rest); if r.Fail? then Fail else Done([c] + r.value, r.rest)
  {
    hide EscapeByte, ParseString;
    if EscapeByte(c) == [c] {
      PlainByte(c, rest);
    } else {
      EscapedSequence(c, rest);
    }
  }

  lemma PlainByte(c: char, rest: string)
    requires EscapeByte(c) == [c]
    ensures ParseString(EscapeByte(c) + rest) ==
              var r := ParseString(rest); if r.Fail? then Fail else Done([c] + r.value, r.rest)
  {
    PlainIsNoControl(c);
    hide EscapeByte, EscapeSequence;
    var s := [c] + rest;
    assert s[1..] == rest && s[0] == c;
  }

  lemma PlainIsNoControl(c: char)
    requires EscapeByte(c) == [c]
    ensures c >= ' ' && c != '\"' && c != '\\'
  {
  }

  lemma EscapedSequence(c: char, rest: string)
    requires EscapeByte(c) != [c]
    ensures ParseString(EscapeByte(c) + rest) ==
              var r := ParseString(rest); if r.Fail? then Fail else Done([c] + r.value, r.rest)
  {
    EscapeReads(c, rest);
    hide EscapeByte, EscapeSequence;
    assert (EscapeByte(c) + rest)[1..] == EscapeByte(c)[1..] + rest;
  }

  lemma {:induction false} EscapedParses(text: string, tail: string, rest: string)
    requires ParseString(tail) == Done([], rest)
    ensures ParseString(Escape(text) + tail) == Done(text, rest)
  {
    hide EscapeByte, ParseString;
    if text == [] {
      assert Escape(text) + tail == tail;
    } else {
      EscapedParses(text[1..], tail, rest);
      EscapedByte(text[0], Escape(text[1..]) + tail);
      assert Escape(text) + tail == EscapeByte(text[0]) + (Escape(text[1..]) + tail);
      assert text == [text[0]] + text[1..];
    }
  }

  lemma QuotedParses(text: string, rest: string)
    ensures ParseString(Escape(text) + ("\"" + rest)) == Done(text, rest)
  {
    hide Escape;
    assert ("\"" + rest)[1..] == rest;
    EscapedParses(text, "\"" + rest, rest);
  }

  /** No printed value starts with space, a comma or a closing bracket. */
  lemma PrintedStart(v: Value)
    requires WellFormed(v)
    ensures Print(v) != []
    ensures var c := Print(v)[0]; !IsSpace(c) && c != ',' && c != ']' && c != '}'
    ensures v.Number? ==> var c := Print(v)[0]; IsDigit(c) || c == '-'
  {
  }

  lemma SkipNothing(s: string)
    requires s != [] && !IsSpace(s[0])
    ensures SkipSpace(s) == s
  {
  }

  /** A printed value parses back to itself within the nesting allowance, and not beyond it. */
  lemma {:induction false} PrintedParses(v: Value, rest: string, depth: nat)
    requires WellFormed(v) && 0 < depth
    requires v.Number? ==> NumberEnds([], 0, rest)
    ensures ParseValue(Print(v) + rest, depth) == if Nesting(v) < depth then Done(v, rest) else Fail
    decreases v, 0
  {
    PrintedStart(v);
    SkipNothing(Print(v) + rest);
    if v.Array? {
      PrintedArrayParses(v.items, rest, depth);
    } else if v.Object? {
      PrintedObjectParses(v.members, rest, depth);
    } else {
      PrintedScalarParses(v, rest, depth);
    }
  }

  lemma PrintedScalarParses(v: Value, rest: string, depth: nat)
    requires WellFormed(v) && !v.Array? && !v.Object?
    requires v.Number? ==> NumberEnds([], 0, rest)
    ensures ParseValue(Print(v) + rest, depth) == Done(v, rest)
  {
    hide ParseString, NumberLength, SkipSpace, Escape;
    var s := Print(v) + rest;
    PrintedStart(v);
    SkipNothing(s);
    match v
    case Null => assert s[..4] == "null" && s[4..] == rest;
    case Bool(b) => assert s[..|Print(v)|] == Print(v) && s[|Print(v)|..] == rest;
    case Number(token) =>
      NumberLengthThen(token, rest);
      assert s[..|token|] == token && s[|token|..] == rest;
    case String(text) =>
      assert s[1..] == Escape(text) + ("\"" + rest);
      QuotedParses(text, rest);
  }

  lemma {:induction false} PrintedArrayParses(items: seq<Value>, rest: string, depth: nat)
    requires WellFormed(Array(items)) && 0 < depth
    ensures ParseValue(Print(Array(items)) + rest, depth) ==
              if Nesting(Array(items)) < depth then Done(Array(items), rest) else Fail
    decreases items, 2
  {
    hide ParseItems, SkipSpace, PrintItems, ItemsNesting;
    var s := Print(Array(items)) + rest;
    SkipNothing(s);
    assert s[1..] == PrintItems(items, true) + ("]" + rest);
    if depth > 1 {
      PrintedItemsParse(items, rest, depth - 1, true);
    }
  }

  lemma {:induction false} PrintedObjectParses(members: seq<Member>, rest: string, depth: nat)
    requires WellFormed(Object(members)) && 0 < depth
    ensures ParseValue(Print(Object(members)) + rest, depth) ==
              if Nesting(Object(members)) < depth then Done(Object(members), rest) else Fail
    decreases members, 2
  {
    hide ParseMembers, SkipSpace, PrintMembers, MembersNesting;
    var s := Print(Object(members)) + rest;
    SkipNothing(s);
    assert s[1..] == PrintMembers(members, true) + ("}" + rest);
    if depth > 1 {
      PrintedMembersParse(members, rest, depth - 1, true);
    }
  }

  lemma {:induction false} PrintedItemsParse(items: seq<Value>, rest: string, depth: nat, first: bool)
    requires forall i :: 0 <= i < |items| ==> WellFormed(items[i])
    requires 0 < depth
    ensures ParseItems(PrintItems(items, first) + ("]" + rest), depth, first) ==
              if ItemsNesting(items) < depth then Done(items, rest) else Fail
    decreases items, 1
  {
    hide ParseValue, SkipSpace, Print, Nesting;
    var s := PrintItems(items, first) + ("]" + rest);
    if items == [] {
      assert s == "]" + rest && s[1..] == rest;
      SkipNothing(s);
    } else {
      var tail := PrintItems(items[1..], false) + ("]" + rest);
      PrintedStart(items[0]);
      SkipNothing(s);
      assert (if first then s else s[1..]) == Print(items[0]) + tail;
      assert tail[0] == ',' || tail[0] == ']';
      PrintedParses(items[0], tail, depth);
      PrintedItemsParse(items[1..], rest, depth, false);
      assert items == [items[0]] + items[1..];
    }
  }

  lemma {:induction false} PrintedMemberParses(m: Member, rest: string, depth: nat)
    requires WellFormed(m.value) && 0 < depth && NumberEnds([], 0, rest)
    ensures ParseMember(Quote(m.key) + (":" + (Print(m.value) + rest)), depth) ==
              if Nesting(m.value) < depth then Done(m, rest) else Fail
    decreases m, 1
  {
    hide ParseValue, ParseString, SkipSpace, Print, Escape, Nesting;
    var tail := ":" + (Print(m.value) + rest);
    var s := Quote(m.key) + tail;
    SkipNothing(s);
    assert s[1..] == Escape(m.key) + ("\"" + tail);
    QuotedParses(m.key, tail);
    SkipNothing(tail);
    assert tail[1..] == Print(m.value) + rest;
    PrintedParses(m.value, rest, depth);
  }

  lemma {:induction false} PrintedMembersParse(members: seq<Member>, rest: string, depth: nat, first: bool)
    requires forall i :: 0 <= i < |members| ==> WellFormed(members[i].value)
    requires 0 < depth
    ensures ParseMembers(PrintMembers(members, first) + ("}" + rest), depth, first) ==
              if MembersNesting(members) < depth then Done(members, rest) else Fail
    decreases members, 1
  {
    hide ParseMember, SkipSpace, Print, Escape, Nesting, PrintMembers, Quote;
    var s := PrintMembers(members, first) + ("}" + rest);
    MembersText(members, first, rest);
    SkipNothing(s);
    if members != [] {
      var m := members[0];
      var tail := PrintMembers(members[1..], false) + ("}" + rest);
      MembersText(members[1..], false, rest);
      PrintedMemberParses(m, tail, depth);
      PrintedMembersParse(members[1..], rest, depth, false);
      assert members == [m] + members[1..];
    }
  }

  /** How the text of members and the closing brace starts. */
  lemma MembersText(members: seq<Member>, first: bool, rest: string)
    ensures var s := PrintMembers(members, first) + ("}" + rest);
            && s != [] && !IsSpace(s[0])
            && if members == [] then s[0] == '}' && s[1..] == rest
               else
                 && (s[0] == ',' <==> !first) && s[0] != '}'
                 && (if first then s else s[1..]) ==
                    Quote(members[0].key) + (":" + (Print(members[0].value) + (PrintMembers(members[1..], false) + ("}" + rest))))
  {
    hide Print, Escape;
    if members != [] {
      Onwards(Quote(members[0].key), ":", Print(members[0].value), PrintMembers(members[1..], false), "}" + rest);
      var body := Quote(members[0].key) + (":" + (Print(members[0].value) + (PrintMembers(members[1..], false) + ("}" + rest))));
      assert (if first then [] else ",") + body == PrintMembers(members, first) + ("}" + rest);
    }
  }

  lemma Onwards(q: string, c: string, v: string, more: string, end: string)
    ensures q + (c + (v + more)) + end == q + (c + (v + (more + end)))
    ensures forall p: string :: p + (q + (c + (v + more))) + end == p + (q + (c + (v + more)) + end)
  {
  }

  // ----- Printed objects form a prefix-free code without newlines -----

  /** The printed text of a value reads back as that value, if it nests at most 127 deep, and as
      nothing at all otherwise. */
  lemma TextRoundTrip(v: Value)
    requires WellFormed(v)
    ensures ParseText(Print(v)) == if Nesting(v) < DEPTH then Some(v) else None
  {
    PrintedParses(v, "", DEPTH);
    assert Print(v) + "" == Print(v);
  }

  /** First and last character of a printed value that is not a number. */
  lemma PrintedEnds(v: Value)
    requires !v.Number?
    ensures var s := Print(v);
            && s != []
            && s[0] in {'{', '[', '\"', 'n', 't', 'f'}
            && s[|s| - 1] in {'}', ']', '\"', 'l', 'e'}
  {
  }

  /** No proper prefix of a printed value is a text, unless the value is a number. */
  lemma ProperPrefixIsNoText(v: Value, k: nat)
    requires WellFormed(v) && !v.Number? && k < |Print(v)|
    ensures ParseText(Print(v)[..k]) == None
  {
    var p, q := Print(v)[..k], Print(v)[k..];
    PrintedEnds(v);
    assert p + q == Print(v) == Print(v) + "";
    PrintedParses(v, "", DEPTH);
    hide Print;
    var r := ParseValue(p, DEPTH);
    if r.Done? {
      NumberStart(p, DEPTH);
      ParseValueThen(p, q, DEPTH);
    }
  }

  lemma NumberStart(s: string, depth: nat)
    requires s != [] && s[0] in {'{', '[', '\"', 'n', 't', 'f'} && ParseValue(s, depth).Done?
    ensures !ParseValue(s, depth).value.Number?
  {
    assert SkipSpace(s) == s;
  }

  /** Anything but space after a printed value spoils it: two objects on a line are no text. */
  lemma NothingFollows(v: Value, more: string)
    requires WellFormed(v) && !v.Number? && SkipSpace(more) != []
    ensures ParseText(Print(v) + more) == None
  {
    PrintedParses(v, more, DEPTH);
  }

  lemma {:induction false} EscapeHasNoNewline(text: string)
    ensures NoNewline(Escape(text))
  {
    if text != [] {
      EscapeHasNoNewline(text[1..]);
      assert NoNewline(EscapeByte(text[0]));
    }
  }

  /** Made of the characters of numbers only. */
  predicate NumberText(s: string) {
    forall i :: 0 <= i < |s| ==> InNumber(s[i])
  }

  lemma NumberTextByParts(s: string, k: nat)
    requires k <= |s| && NumberText(s[..k]) && NumberText(s[k..])
    ensures NumberText(s)
  {
    forall i | 0 <= i < |s|
      ensures InNumber(s[i])
    {
      assert s[i] == if i < k then s[..k][i] else s[k..][i - k];
    }
  }

  lemma {:induction false} DigitsAreNumberText(s: string)
    requires DigitRun(s) == |s|
    ensures NumberText(s)
  {
    if s != [] {
      DigitsAreNumberText(s[1..]);
      NumberTextByParts(s, 1);
    }
  }

  /** A part of a run of digits is a run of digits. */
  lemma {:induction false} DigitRunOfPrefix(s: string, n: nat)
    requires n <= DigitRun(s)
    ensures DigitRun(s[..n]) == n
    ensures n < DigitRun(s) ==> IsDigit(s[n])
  {
    if n > 0 {
      DigitRunOfPrefix(s[1..], n - 1);
      assert s[..n][1..] == s[1..][..n - 1];
    }
  }

  lemma FractionIsNumberText(s: string)
    requires FractionPart(s).Some?
    ensures NumberText(s[..FractionPart(s).value])
  {
    var n := FractionPart(s).value;
    if n > 0 {
      DigitRunOfPrefix(s[1..], n - 1);
      DigitsAreNumberText(s[1..][..n - 1]);
      assert s[..n][1..] == s[1..][..n - 1];
      NumberTextByParts(s[..n], 1);
    }
  }

  lemma ExponentIsNumberText(s: string)
    requires ExponentPart(s) == Some(|s|)
    ensures NumberText(s)
  {
    if s != [] {
      var sign := if |s| > 1 && (s[1] == '+' || s[1] == '-') then 2 else 1;
      DigitsAreNumberText(s[sign..]);
      NumberTextByParts(s, sign);
    }
  }

  lemma TokenIsNumberText(t: string)
    requires IsNumberToken(t)
    ensures NumberText(t)
  {
    hide UnsignedPart;
    if t[0] == '-' {
      UnsignedIsNumberText(t[1..]);
      NumberTextByParts(t, 1);
    } else {
      UnsignedIsNumberText(t);
    }
  }

  lemma UnsignedIsNumberText(s: string)
    requires UnsignedPart(s) == Some(|s|)
    ensures NumberText(s)
  {
    hide FractionPart, ExponentPart, NumberText;
    var a := IntegerPart(s).value;
    DigitRunOfPrefix(s, a);
    DigitsAreNumberText(s[..a]);
    var tail := s[a..];
    var b := FractionPart(tail).value;
    FractionIsNumberText(tail);
    ExponentIsNumberText(tail[b..]);
    NumberTextByParts(tail, b);
    NumberTextByParts(s, a);
  }

  /** One value, one line. */
  lemma {:induction false} PrintHasNoNewline(v: Value)
    requires WellFormed(v)
    ensures NoNewline(Print(v))
    decreases v, 0
  {
    match v
    case Number(token) => TokenIsNumberText(token);
    case String(text) => EscapeHasNoNewline(text);
    case Array(items) => ItemsHaveNoNewline(items, true);
    case Object(members) => MembersHaveNoNewline(members, true);
    case _ =>
  }

  lemma {:induction false} ItemsHaveNoNewline(items: seq<Value>, first: bool)
    requires forall i :: 0 <= i < |items| ==> WellFormed(items[i])
    ensures NoNewline(PrintItems(items, first))
    decreases items, 1
  {
    if items != [] {
      PrintHasNoNewline(items[0]);
      ItemsHaveNoNewline(items[1..], false);
    }
  }

  lemma {:induction false} MembersHaveNoNewline(members: seq<Member>, first: bool)
    requires forall i :: 0 <= i < |members| ==> WellFormed(members[i].value)
    ensures NoNewline(PrintMembers(members, first))
    decreases members, 1
  {
    if members != [] {
      EscapeHasNoNewline(members[0].key);
      PrintHasNoNewline(members[0].value);
      MembersHaveNoNewline(members[1..], false);
    }
  }
}
