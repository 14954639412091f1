/** The number tokens that are read are those of the grammar of RFC 8259 section 6. */
module NumberGrammar {
  import opened JsonText
  import opened Wrappers

  predicate AllDigits(s: string) {
    s != [] && forall i :: 0 <= i < |s| ==> '0' <= s[i] <= '9'
  }

  /** `int`: a zero alone, or digits without a leading zero. */
  predicate Int(s: string) { AllDigits(s) && (s[0] == '0' ==> |s| == 1) }

  /** `frac`, or nothing. */
  predicate Frac(s: string) { s == [] || (s[0] == '.' && AllDigits(s[1..])) }

  /** `exp`, or nothing. */
  predicate Exp(s: string) {
    || s == []
    || ((s[0] == 'e' || s[0] == 'E') &&
        (AllDigits(s[1..]) || (|s| > 1 && (s[1] == '+' || s[1] == '-') && AllDigits(s[2..]))))
  }

  predicate Minus(s: string) { s == [] || s == "-" }

  lemma {:induction false} RunOfDigits(s: string, q: string)
    requires forall i :: 0 <= i < |s| ==> '0' <= s[i] <= '9'
    requires q == [] || !IsDigit(q[0])
    ensures DigitRun(s + q) == |s|
  {
    if s == [] {
      assert s + q == q;
    } else {
      assert (s + q)[1..] == s[1..] + q;
      RunOfDigits(s[1..], q);
    }
  }

  lemma {:induction false} DigitsOfRun(s: string)
    ensures forall i :: 0 <= i < DigitRun(s) ==> '0' <= s[i] <= '9'
  {
    if s != [] && IsDigit(s[0]) {
      DigitsOfRun(s[1..]);
      assert forall i :: 0 < i < DigitRun(s) ==> s[i] == s[1..][i - 1];
    }
  }

  lemma ExpPart(e: string)
    requires Exp(e)
    ensures ExponentPart(e) == Some(|e|)
  {
    if e != [] {
      var sign := if |e| > 1 && (e[1] == '+' || e[1] == '-') then 2 else 1;
      RunOfDigits(e[sign..], []);
      assert e[sign..] + [] == e[sign..];
    }
  }

  lemma FracPart(f: string, e: string)
    requires Frac(f) && Exp(e)
    ensures FractionPart(f + e) == Some(|f|)
  {
    if f == [] {
      assert f + e == e;
    } else {
      RunOfDigits(f[1..], e);
      assert (f + e)[1..] == f[1..] + e;
    }
  }

  lemma IntPart(i: string, q: string)
    requires Int(i) && (q == [] || !IsDigit(q[0]))
    ensures IntegerPart(i + q) == Some(|i|)
  {
    RunOfDigits(i, q);
    assert (i + q)[0] == i[0];
  }

  lemma GrammarIsToken(m: string, i: string, f: string, e: string)
    requires Minus(m) && Int(i) && Frac(f) && Exp(e)
    ensures IsNumberToken(m + (i + (f + e)))
  {
    hide IntegerPart, FractionPart, ExponentPart;
    var tail := f + e;
    FracPart(f, e);
    ExpPart(e);
    assert tail[|f|..] == e;
    assert TailPart(tail) == Some(|tail|);
    StartOfTail(f, e);
    IntPart(i, tail);
    var u := i + tail;
    assert u[|i|..] == tail;
    assert UnsignedPart(u) == Some(|u|);
    if m == [] {
      assert m + u == u && u[0] == i[0];
    } else {
      assert (m + u)[1..] == u;
    }
  }

  lemma StartOfTail(f: string, e: string)
    requires Frac(f) && Exp(e)
    ensures f + e == [] || !IsDigit((f + e)[0])
  {
  }

  lemma ExpOfPart(s: string)
    requires ExponentPart(s) == Some(|s|)
    ensures Exp(s)
  {
    if s != [] {
      var sign := if |s| > 1 && (s[1] == '+' || s[1] == '-') then 2 else 1;
      DigitsOfRun(s[sign..]);
    }
  }

  lemma FracOfPart(s: string)
    requires FractionPart(s).Some?
    ensures Frac(s[..FractionPart(s).value])
  {
    var n := FractionPart(s).value;
    if n > 0 {
      DigitsOfRun(s[1..]);
      assert s[..n][1..] == s[1..][..n - 1];
    }
  }

  lemma IntOfPart(s: string)
    requires IntegerPart(s).Some?
    ensures Int(s[..IntegerPart(s).value])
  {
    DigitsOfRun(s);
  }

  lemma TailIsGrammar(tail: string) returns (f: string, e: string)
    requires TailPart(tail) == Some(|tail|)
    ensures Frac(f) && Exp(e) && tail == f + e
  {
    hide FractionPart, ExponentPart, Frac, Exp;
    var b := FractionPart(tail).value;
    f, e := tail[..b], tail[b..];
    FracOfPart(tail);
    ExpOfPart(e);
  }

  lemma UnsignedIsGrammar(u: string) returns (i: string, f: string, e: string)
    requires UnsignedPart(u) == Some(|u|)
    ensures Int(i) && Frac(f) && Exp(e) && u == i + (f + e)
  {
    hide IntegerPart, TailPart, Int, Frac, Exp;
    var a := IntegerPart(u).value;
    i := u[..a];
    IntOfPart(u);
    f, e := TailIsGrammar(u[a..]);
  }

  lemma TokenIsGrammar(t: string) returns (m: string, i: string, f: string, e: string)
    requires IsNumberToken(t)
    ensures Minus(m) && Int(i) && Frac(f) && Exp(e) && t == m + (i + (f + e))
  {
    hide UnsignedPart, Int, Frac, Exp;
    if t[0] == '-' {
      m := "-";
      i, f, e := UnsignedIsGrammar(t[1..]);
      assert t == "-" + t[1..];
    } else {
      m := [];
      i, f, e := UnsignedIsGrammar(t);
      assert t == [] + t;
    }
  }

  /** A text is read as a number exactly when it is a minus or nothing, an integer part, and an optional
      fraction and exponent. */
  lemma TokenExactly(t: string)
    ensures IsNumberToken(t) <==> exists m, i, f, e :: Minus(m) && Int(i) && Frac(f) && Exp(e) && t == m + (i + (f + e))
  {
    hide Minus, Int, Frac, Exp, IsNumberToken;
    if IsNumberToken(t) {
      var m, i, f, e := TokenIsGrammar(t);
    }
    if m, i, f, e :| Minus(m) && Int(i) && Frac(f) && Exp(e) && t == m + (i + (f + e)) {
      GrammarIsToken(m, i, f, e);
    }
  }
}
