/** Compact JSON text: the printer, the parser, and how they fit together.

    The grammar is RFC 8259. As in the source's parser, arrays and objects nest at most 127 deep
    in a text, and lone surrogate escapes are refused. */
module JsonText {
  import opened Json
  import opened Wrappers

  // ----- Printer -----

  function HexDigit(n: nat): char
    requires n < 16
  {
    "0123456789abcdef"[n]
  }

  /** Only control characters, the quote and the backslash are escaped. */
  function EscapeByte(c: char): string {
    if c == '\"' then "\\\""
    else if c == '\\' then "\\\\"
    else if c == 8 as char then "\\b"
    else if c == '\t' then "\\t"
    else if c == '\n' then "\\n"
    else if c == 12 as char then "\\f"
    else if c == '\r' then "\\r"
    else if c < ' ' then "\\u00" + [HexDigit(c as nat / 16), HexDigit(c as nat % 16)]
    else [c]
  }

  function Escape(text: string): string {
    if text == [] then [] else EscapeByte(text[0]) + Escape(text[1..])
  }

  function Quote(text: string): string {
    "\"" + (Escape(text) + "\"")
  }

  function Print(v: Value): string {
    match v
    case Null => "null"
    case Bool(b) => if b then "true" else "false"
    case Number(token) => token
    case String(text) => Quote(text)
    case Array(items) => "[" + (PrintItems(items, true) + "]")
    case Object(members) => "{" + (PrintMembers(members, true) + "}")
  }

  function PrintItems(items: seq<Value>, first: bool): string {
    if items == [] then []
    else (if first then [] else ",") + (Print(items[0]) + PrintItems(items[1..], false))
  }

  function PrintMembers(members: seq<Member>, first: bool): string {
    if members == [] then []
    else
      (if first then [] else ",") +
      (Quote(members[0].key) + (":" + (Print(members[0].value) + PrintMembers(members[1..], false))))
  }

  // ----- Parser: lexical part -----

  datatype Parsed<T> = Fail | Done(value: T, rest: string)

  predicate IsSpace(c: char) { c == ' ' || c == '\n' || c == '\t' || c == '\r' }

  function SkipSpace(s: string): (r: string)
    ensures |r| <= |s|
    ensures r != [] ==> !IsSpace(r[0])
  {
    if s != [] && IsSpace(s[0]) then SkipSpace(s[1..]) else s
  }

  predicate IsDigit(c: char) { '0' <= c <= '9' }

  function DigitRun(s: string): (n: nat)
    ensures n <= |s|
    ensures n < |s| ==> !IsDigit(s[n])
  {
    if s != [] && IsDigit(s[0]) then 1 + DigitRun(s[1..]) else 0
  }

  /** Length of the integer part at `s`: no leading zero, at least one digit. */
  function IntegerPart(s: string): (n: Option<nat>)
    ensures n.Some? ==> 0 < n.value <= |s|
  {
    var d := DigitRun(s);
    if d == 0 || (s[0] == '0' && d > 1) then None else Some(d)
  }

  /** Length of the fraction at `s`, which may be missing. */
  function FractionPart(s: string): (n: Option<nat>)
    ensures n.Some? ==> n.value <= |s|
  {
    if s == [] || s[0] != '.' then Some(0)
    else if DigitRun(s[1..]) == 0 then None else Some(1 + DigitRun(s[1..]))
  }

  /** Length of the exponent at `s`, which may be missing. */
  function ExponentPart(s: string): (n: Option<nat>)
    ensures n.Some? ==> n.value <= |s|
  {
    if s == [] || (s[0] != 'e' && s[0] != 'E') then Some(0)
    else
      var sign := if |s| > 1 && (s[1] == '+' || s[1] == '-') then 2 else 1;
      if DigitRun(s[sign..]) == 0 then None else Some(sign + DigitRun(s[sign..]))
  }

  /** Length of the fraction and exponent at `s`, which may be missing. */
  function TailPart(s: string): (n: Option<nat>)
    ensures n.Some? ==> n.value <= |s|
  {
    var b := FractionPart(s);
    if b.None? then None else
    var c := ExponentPart(s[b.value..]);
    if c.None? then None else Some(b.value + c.value)
  }

  /** Length of the number without sign at `s`. */
  function UnsignedPart(s: string): (n: Option<nat>)
    ensures n.Some? ==> 0 < n.value <= |s|
  {
    var a := IntegerPart(s);
    if a.None? then None else
    var b := TailPart(s[a.value..]);
    if b.None? then None else Some(a.value + b.value)
  }

  /** Length of the number token at the start of `s`. */
  function NumberLength(s: string): (n: Option<nat>)
    ensures n.Some? ==> 0 < n.value <= |s|
  {
    if s != [] && s[0] == '-' then
      var n := UnsignedPart(s[1..]);
      if n.None? then None else Some(1 + n.value)
    else UnsignedPart(s)
  }

  predicate IsNumberToken(t: string) {
    NumberLength(t) == Some(|t|)
  }

  function HexValue(c: char): Option<nat> {
    if '0' <= c <= '9' then Some(c as nat - '0' as nat)
    else if 'a' <= c <= 'f' then Some(c as nat - 'a' as nat + 10)
    else if 'A' <= c <= 'F' then Some(c as nat - 'A' as nat + 10)
    else None
  }

  /** Four hexadecimal digits. */
  function Hex4(s: string): (r: Option<nat>)
    ensures r.Some? ==> |s| >= 4 && r.value < 0x1_0000
  {
    if |s| < 4 then None else
    var a, b, c, d := HexValue(s[0]), HexValue(s[1]), HexValue(s[2]), HexValue(s[3]);
    if a.Some? && b.Some? && c.Some? && d.Some?
    then Some(0x1000 * a.value + 0x100 * b.value + 0x10 * c.value + d.value) else None
  }

  /** UTF-8 bytes of a code point. */
  function Utf8Encode(n: nat): string
    requires n < 0x11_0000
  {
    if n < 0x80 then [n as char]
    else if n < 0x800 then [(0xC0 + n / 0x40) as char, (0x80 + n % 0x40) as char]
    else if n < 0x1_0000 then
      [(0xE0 + n / 0x1000) as char, (0x80 + n / 0x40 % 0x40) as char, (0x80 + n % 0x40) as char]
    else
      [(0xF0 + n / 0x4_0000) as char, (0x80 + n / 0x1000 % 0x40) as char,
       (0x80 + n / 0x40 % 0x40) as char, (0x80 + n % 0x40) as char]
  }

  /** A `\u` escape, `s` starting after the `u`; a leading surrogate needs its trailing one. */
  function UnicodeEscape(s: string): (r: Parsed<string>)
    ensures r.Done? ==> |r.rest| < |s|
  {
    var n := Hex4(s);
    if n.None? || 0xDC00 <= n.value <= 0xDFFF then Fail
    else if n.value < 0xD800 || 0xDBFF < n.value then Done(Utf8Encode(n.value), s[4..])
    else if |s| < 6 || s[4] != '\\' || s[5] != 'u' then Fail
    else
      var m := Hex4(s[6..]);
      if m.None? || m.value < 0xDC00 || 0xDFFF < m.value then Fail
      else Done(Utf8Encode(0x1_0000 + 0x400 * (n.value - 0xD800) + (m.value - 0xDC00)), s[10..])
  }

  /** One escape, `s` starting after the backslash. */
  function EscapeSequence(s: string): (r: Parsed<string>)
    ensures r.Done? ==> |r.rest| < |s|
  {
    if s == [] then Fail
    else if s[0] == '\"' || s[0] == '\\' || s[0] == '/' then Done([s[0]], s[1..])
    else if s[0] == 'b' then Done([8 as char], s[1..])
    else if s[0] == 'f' then Done([12 as char], s[1..])
    else if s[0] == 'n' then Done("\n", s[1..])
    else if s[0] == 'r' then Done("\r", s[1..])
    else if s[0] == 't' then Done("\t", s[1..])
    else if s[0] == 'u' then UnicodeEscape(s[1..])
    else Fail
  }

  /** The text of a string, `s` starting after the opening quote. */
  function ParseString(s: string): (r: Parsed<string>)
    ensures r.Done? ==> |r.rest| < |s|
    decreases |s|
  {
    if s == [] || s[0] < ' ' then Fail
    else if s[0] == '\"' then Done([], s[1..])
    else
      var head := if s[0] == '\\' then EscapeSequence(s[1..]) else Done([s[0]], s[1..]);
      if head.Fail? then Fail else
      var tail := ParseString(head.rest);
      if tail.Fail? then Fail else Done(head.value + tail.value, tail.rest)
  }

  // ----- Parser: values -----

  function ParseWord(s: string, word: string, v: Value): Parsed<Value> {
    if word <= s then Done(v, s[|word|..]) else Fail
  }

  /** `depth` is what is left of the nesting allowance; a container needs two. */
  function ParseValue(s: string, depth: nat): (r: Parsed<Value>)
    ensures r.Done? ==> |r.rest| < |s|
    decreases |s|, 2
  {
    var t := SkipSpace(s);
    if t == [] then Fail
    else if t[0] == 'n' then ParseWord(t, "null", Null)
    else if t[0] == 't' then ParseWord(t, "true", Bool(true))
    else if t[0] == 'f' then ParseWord(t, "false", Bool(false))
    else if t[0] == '\"' then
      var r := ParseString(t[1..]);
      if r.Fail? then Fail else Done(String(r.value), r.rest)
    else if t[0] == '[' then
      if depth <= 1 then Fail else
      var r := ParseItems(t[1..], depth - 1, true);
      if r.Fail? then Fail else Done(Array(r.value), r.rest)
    else if t[0] == '{' then
      if depth <= 1 then Fail else
      var r := ParseMembers(t[1..], depth - 1, true);
      if r.Fail? then Fail else Done(Object(r.value), r.rest)
    else
      var n := NumberLength(t);
      if n.None? then Fail else Done(Number(t[..n.value]), t[n.value..])
  }

  /** Elements up to the closing bracket. */
  function ParseItems(s: string, depth: nat, first: bool): (r: Parsed<seq<Value>>)
    ensures r.Done? ==> |r.rest| < |s|
    decreases |s|, 3
  {
    var t := SkipSpace(s);
    if t == [] then Fail
    else if t[0] == ']' then Done([], t[1..])
    else if !first && t[0] != ',' then Fail
    else
      var item := ParseValue(if first then t else t[1..], depth);
      if item.Fail? then Fail else
      var more := ParseItems(item.rest, depth, false);
      if more.Fail? then Fail else Done([item.value] + more.value, more.rest)
  }

  /** One member: a quoted key, a colon and a value. */
  function ParseMember(s: string, depth: nat): (r: Parsed<Member>)
    ensures r.Done? ==> |r.rest| < |s|
    decreases |s|, 3
  {
    var t := SkipSpace(s);
    if t == [] || t[0] != '\"' then Fail else
    var key := ParseString(t[1..]);
    if key.Fail? then Fail else
    var u := SkipSpace(key.rest);
    if u == [] || u[0] != ':' then Fail else
    var v := ParseValue(u[1..], depth);
    if v.Fail? then Fail else Done(Member(key.value, v.value), v.rest)
  }

  /** Members up to the closing brace. */
  function ParseMembers(s: string, depth: nat, first: bool): (r: Parsed<seq<Member>>)
    ensures r.Done? ==> |r.rest| < |s|
    decreases |s|, 4
  {
    var t := SkipSpace(s);
    if t == [] then Fail
    else if t[0] == '}' then Done([], t[1..])
    else if !first && t[0] != ',' then Fail
    else
      var m := ParseMember(if first then t else t[1..], depth);
      if m.Fail? then Fail else
      var more := ParseMembers(m.rest, depth, false);
      if more.Fail? then Fail else Done([m.value] + more.value, more.rest)
  }

  const DEPTH := 128

  /** A whole text: one value with nothing but space around it. */
  function ParseText(s: string): Option<Value> {
    var r := ParseValue(s, DEPTH);
    if r.Done? && SkipSpace(r.rest) == [] then Some(r.value) else None
  }
}
