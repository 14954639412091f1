/** The timestamp text of the stores and the order it is sorted in.

    RFC 3339 section 5.1 promises that timestamps in one fixed form sort as text in time order.
    The stores rely on it. It holds below year 10000 and no further. */
module Timestamps {
  import opened Calendar
  import opened CalendarLaws
  import opened MachineInts
  import opened Texts

  // ----- Decimal text -----

  function Digit(n: nat): char
    requires n < 10
  {
    '0' + n as char
  }

  function Decimal(n: nat): string {
    if n < 10 then [Digit(n)] else Decimal(n / 10) + [Digit(n % 10)]
  }

  /** `{n:0width}`: at least `width` digits. */
  function Padded(n: nat, width: nat): string {
    var text := Decimal(n);
    if |text| < width then Zeros(width - |text|) + text else text
  }

  function Zeros(n: nat): string {
    seq(n, _ => '0')
  }

  /** The low `width` decimal digits of `n`, most significant first. */
  function Digits(n: nat, width: nat): (s: string)
    ensures |s| == width
  {
    if width == 0 then [] else Digits(n / 10, width - 1) + [Digit(n % 10)]
  }

  function Pow10(n: nat): (p: nat)
    ensures p > 0
  {
    if n == 0 then 1 else 10 * Pow10(n - 1)
  }

  lemma {:induction false} DigitsOfZero(width: nat)
    ensures Digits(0, width) == Zeros(width)
  {
    if width > 0 {
      DigitsOfZero(width - 1);
    }
  }

  /** A number that fits its width prints as exactly that many digits. */
  lemma {:induction false} PaddedIsDigits(n: nat, width: nat)
    requires n < Pow10(width) && 0 < width
    ensures |Decimal(n)| <= width
    ensures Padded(n, width) == Digits(n, width)
  {
    if n < 10 {
      DigitsOfZero(width - 1);
      assert Digits(n, width) == Zeros(width - 1) + [Digit(n)];
    } else {
      assert n / 10 < Pow10(width - 1);
      PaddedIsDigits(n / 10, width - 1);
      assert Padded(n, width) == Padded(n / 10, width - 1) + [Digit(n % 10)];
    }
  }

  /** Digits of one width compare as their numbers do. */
  lemma {:induction false} DigitsOrder(a: nat, b: nat, width: nat)
    requires a < Pow10(width) && b < Pow10(width)
    ensures Less(Digits(a, width), Digits(b, width)) <==> a < b
    ensures Digits(a, width) == Digits(b, width) <==> a == b
  {
    if width > 0 {
      var x, y := Digits(a / 10, width - 1), Digits(b / 10, width - 1);
      DigitsOrder(a / 10, b / 10, width - 1);
      LessByParts(x, y, [Digit(a % 10)], [Digit(b % 10)]);
      assert Digits(a, width)[..width - 1] == x && Digits(b, width)[..width - 1] == y;
      assert Digits(a, width)[width - 1] == Digit(a % 10) && Digits(b, width)[width - 1] == Digit(b % 10);
    }
  }

  // ----- Timestamp text -----

  /** `{year:04}-{month:02}-{day:02}T{hour:02}:{minute:02}:{second:02}Z` */
  function Format(c: Civil): string {
    Padded(c.year, 4) + ("-" + (Padded(c.month, 2) + ("-" + (Padded(c.day, 2) + ("T" +
    (Padded(c.hour, 2) + (":" + (Padded(c.minute, 2) + (":" + (Padded(c.second, 2) + "Z"))))))))))
  }

  /** The text the stores write for the clock reading `secs`. */
  function NowIso(secs: u64): string {
    Format(EpochToYmdHms(secs).Widen())
  }

  /** The first second of year 10000. */
  const FIRST_SECOND_OF_YEAR_10000: u64 := 253_402_300_800

  lemma FieldOrder(a: nat, b: nat, width: nat, x: string, y: string)
    requires 0 < width && a < Pow10(width) && b < Pow10(width)
    ensures Less(Padded(a, width) + x, Padded(b, width) + y) <==> a < b || (a == b && Less(x, y))
  {
    PaddedIsDigits(a, width);
    PaddedIsDigits(b, width);
    DigitsOrder(a, b, width);
    LessByParts(Digits(a, width), Digits(b, width), x, y);
  }

  /** A separator and a two-digit field in front of two texts. */
  lemma NextField(separator: string, a: nat, b: nat, x: string, y: string)
    requires a < 100 && b < 100
    ensures Less(separator + (Padded(a, 2) + x), separator + (Padded(b, 2) + y)) <==> a < b || (a == b && Less(x, y))
  {
    assert Pow10(2) == 100;
    LessIsTotal(separator, separator);
    LessByParts(separator, separator, Padded(a, 2) + x, Padded(b, 2) + y);
    FieldOrder(a, b, 2, x, y);
  }

  function AfterMinute(c: Civil): string { ":" + (Padded(c.second, 2) + "Z") }
  function AfterHour(c: Civil): string { ":" + (Padded(c.minute, 2) + AfterMinute(c)) }
  function AfterDay(c: Civil): string { "T" + (Padded(c.hour, 2) + AfterHour(c)) }
  function AfterMonth(c: Civil): string { "-" + (Padded(c.day, 2) + AfterDay(c)) }
  function AfterYear(c: Civil): string { "-" + (Padded(c.month, 2) + AfterMonth(c)) }

  lemma FormatOrder(a: Civil, b: Civil)
    requires a.Valid() && b.Valid() && a.year < 10_000 && b.year < 10_000
    ensures Less(Format(a), Format(b)) <==> a.Before(b)
  {
    NextField(":", a.second, b.second, "Z", "Z");
    NextField(":", a.minute, b.minute, AfterMinute(a), AfterMinute(b));
    NextField("T", a.hour, b.hour, AfterHour(a), AfterHour(b));
    NextField("-", a.day, b.day, AfterDay(a), AfterDay(b));
    NextField("-", a.month, b.month, AfterMonth(a), AfterMonth(b));
    assert Pow10(2) == 100 && Pow10(3) == 1000 && Pow10(4) == 10_000;
    FieldOrder(a.year, b.year, 4, AfterYear(a), AfterYear(b));
  }

  lemma YearBelow10000(c: Civil)
    requires c.Valid()
    ensures c.year < 10_000 <==> c.ToSeconds() < FIRST_SECOND_OF_YEAR_10000 as nat
  {
    YearAgainst(c, 10_000);
    assert MarchYearStart(9999) == 3_652_059;
  }

  /** Below year 10000 the text of a clock reading sorts exactly as the reading does. */
  lemma TextOrderIsTimeOrder(t1: u64, t2: u64)
    requires t1 < FIRST_SECOND_OF_YEAR_10000 && t2 < FIRST_SECOND_OF_YEAR_10000
    ensures Less(NowIso(t1), NowIso(t2)) <==> t1 < t2
  {
    EpochExactness(t1);
    EpochExactness(t2);
    var c1, c2 := EpochToYmdHms(t1).Widen(), EpochToYmdHms(t2).Widen();
    YearBelow10000(c1);
    YearBelow10000(c2);
    FormatOrder(c1, c2);
    if t1 < t2 {
      EarlierIsBefore(c1, c2);
    } else if c1.Before(c2) {
      BeforeIsEarlier(c1, c2);
    }
  }

  /** The first second of year 10000 sorts before the first second of 1970. */
  lemma Year10000SortsFirst() returns (early: u64, late: u64)
    ensures early < late && late <= FIRST_SECOND_OF_YEAR_10000
    ensures Less(NowIso(late), NowIso(early))
  {
    var first, last: Civil;
    assert MarchYearStart(1969) == 719_162 && MarchYearStart(9999) == 3_652_059;
    early, first := NewYearText(1970, 719_162);
    late, last := NewYearText(10_000, 3_652_059);
    Year10000Text(first, last);
  }

  lemma NewYearText(year: nat, start: nat) returns (secs: u64, c: Civil)
    requires 1970 <= year < 0x1_0000_0000 && MarchYearStart(year - 1) == start
    ensures secs as int == 86_400 * (start + 306 - 719_468)
    ensures c.year == year && NowIso(secs) == Format(c)
  {
    c := Civil(year, 1, 1, 0, 0, 0);
    FirstSecondOfYear(c);
    EpochInvertsToSeconds(c);
    secs := c.ToSeconds() as u64;
  }

  lemma Year10000Text(early: Civil, late: Civil)
    requires early.year == 1970 && late.year == 10_000
    ensures Less(Format(late), Format(early))
  {
    assert Decimal(1970) == "1970" && Decimal(10_000) == "10000";
    assert Padded(1970, 4) == "1970" && Padded(10_000, 4) == "10000";
    var x, y := Format(late), Format(early);
    assert x[0] == '1' == y[0] && x[1] == '0' && y[1] == '9';
    assert x[1..][0] == '0' && y[1..][0] == '9';
  }

  /** Sorting by the text is chronological for every clock below `bound` exactly when `bound` does
      not pass the first second of year 10000. */
  lemma TextOrderExactness(bound: u64)
    ensures (forall t1: u64, t2: u64 :: t1 < bound && t2 < bound ==> (Less(NowIso(t1), NowIso(t2)) <==> t1 < t2))
            <==> bound <= FIRST_SECOND_OF_YEAR_10000
  {
    if bound <= FIRST_SECOND_OF_YEAR_10000 {
      forall t1: u64, t2: u64 | t1 < bound && t2 < bound
        ensures Less(NowIso(t1), NowIso(t2)) <==> t1 < t2
      {
        TextOrderIsTimeOrder(t1, t2);
      }
    } else {
      var early, late := Year10000SortsFirst();
      assert early < bound && late < bound;
    }
  }
}
