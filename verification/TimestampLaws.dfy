/** The form of the timestamp text, and what it reads back to. */
module TimestampLaws {
  import opened Calendar
  import opened CalendarLaws
  import opened MachineInts
  import opened Timestamps

  predicate Numeric(s: string) {
    s != [] && forall i :: 0 <= i < |s| ==> '0' <= s[i] <= '9'
  }

  /** The number that a text of digits spells. */
  function NumberOf(s: string): nat
    requires forall i :: 0 <= i < |s| ==> '0' <= s[i] <= '9'
  {
    if s == [] then 0 else 10 * NumberOf(s[..|s| - 1]) + (s[|s| - 1] as nat - '0' as nat)
  }

  /** `date-time` of RFC 3339 section 5.6 in UTC without a fraction, where the first `y` characters are the
      year: `full-date`, `T`, `partial-time`, `Z`. */
  predicate DateTime(s: string, y: nat) {
    && 4 <= y && |s| == y + 16 && Numeric(s[..y])
    && s[y] == '-' && Numeric(s[y + 1..y + 3]) && s[y + 3] == '-' && Numeric(s[y + 4..y + 6])
    && s[y + 6] == 'T' && Numeric(s[y + 7..y + 9]) && s[y + 9] == ':' && Numeric(s[y + 10..y + 12])
    && s[y + 12] == ':' && Numeric(s[y + 13..y + 15]) && s[y + 15] == 'Z'
  }

  /** Year, month, day, hour, minute and second as they stand in the text. */
  function ReadBack(s: string, y: nat): Civil
    requires DateTime(s, y)
  {
    Civil(NumberOf(s[..y]), NumberOf(s[y + 1..y + 3]), NumberOf(s[y + 4..y + 6]),
          NumberOf(s[y + 7..y + 9]), NumberOf(s[y + 10..y + 12]), NumberOf(s[y + 13..y + 15]))
  }

  /** A timestamp text that says `c`; the year takes all characters in front of the other fields. */
  predicate Reads(s: string, c: Civil) {
    |s| >= 20 && DateTime(s, |s| - 16) && ReadBack(s, |s| - 16) == c
  }

  lemma {:induction false} DecimalSpells(n: nat)
    ensures Numeric(Decimal(n)) && NumberOf(Decimal(n)) == n
  {
    var s := Decimal(n);
    if n < 10 {
      assert s[..0] == [] && s[0] as nat - '0' as nat == n;
    } else {
      DecimalSpells(n / 10);
      assert s[..|s| - 1] == Decimal(n / 10) && s[|s| - 1] as nat - '0' as nat == n % 10;
    }
  }

  lemma {:induction false} ZerosInFront(k: nat, s: string)
    requires Numeric(s)
    ensures Numeric(Zeros(k) + s) && NumberOf(Zeros(k) + s) == NumberOf(s)
    decreases |s|
  {
    var t := Zeros(k) + s;
    assert t[..|t| - 1] == Zeros(k) + s[..|s| - 1] && t[|t| - 1] == s[|s| - 1];
    if |s| == 1 {
      assert s[..0] == [] && t[..|t| - 1] == Zeros(k);
      OnlyZeros(k);
    } else {
      ZerosInFront(k, s[..|s| - 1]);
    }
  }

  lemma {:induction false} OnlyZeros(k: nat)
    ensures NumberOf(Zeros(k)) == 0
  {
    if k > 0 {
      assert Zeros(k)[..k - 1] == Zeros(k - 1);
      OnlyZeros(k - 1);
    }
  }

  lemma PaddedSpells(n: nat, width: nat)
    requires width > 0
    ensures |Padded(n, width)| >= width && Numeric(Padded(n, width)) && NumberOf(Padded(n, width)) == n
    ensures n < Pow10(width) ==> |Padded(n, width)| == width
  {
    hide Decimal, Zeros;
    DecimalSpells(n);
    if |Decimal(n)| < width {
      ZerosInFront(width - |Decimal(n)|, Decimal(n));
      ZerosLength(width - |Decimal(n)|);
    }
    if n < Pow10(width) {
      PaddedIsDigits(n, width);
    }
  }

  lemma ZerosLength(k: nat)
    ensures |Zeros(k)| == k
  {
  }

  /** A separator and a two-digit field at position `n`, and what is behind them. */
  lemma FieldAt(s: string, n: nat, separator: string, field: string, rest: string)
    requires n <= |s| && s[n..] == separator + (field + rest) && |separator| == 1 && |field| == 2
    ensures |s| == n + 3 + |rest| && s[n] == separator[0] && s[n + 1..n + 3] == field && s[n + 3..] == rest
  {
    var t := separator + (field + rest);
    assert |t| == 3 + |rest| && t[0] == separator[0] && t[1] == field[0] && t[2] == field[1];
    assert t[3..] == rest;
    assert s[n] == s[n..][0] && s[n + 1] == s[n..][1] && s[n + 2] == s[n..][2];
    assert s[n + 3..] == s[n..][3..];
    assert field == [field[0], field[1]] && s[n + 1..n + 3] == [s[n + 1], s[n + 2]];
  }

  lemma Parts(s: string, year: string, month: string, day: string, hour: string, minute: string, second: string)
    requires |month| == |day| == |hour| == |minute| == |second| == 2
    requires s == year + ("-" + (month + ("-" + (day + ("T" + (hour + (":" + (minute + (":" + (second + "Z"))))))))))
    ensures var y := |year|;
            && |s| == y + 16 && s[..y] == year && s[y] == '-' && s[y + 1..y + 3] == month && s[y + 3] == '-' && s[y + 4..y + 6] == day
            && s[y + 6] == 'T' && s[y + 7..y + 9] == hour && s[y + 9] == ':' && s[y + 10..y + 12] == minute
            && s[y + 12] == ':' && s[y + 13..y + 15] == second && s[y + 15] == 'Z'
  {
    var y := |year|;
    var e := ":" + (second + "Z");
    var d := ":" + (minute + e);
    var c := "T" + (hour + d);
    var b := "-" + (day + c);
    assert s[y..] == "-" + (month + b) && s[..y] == year;
    FieldAt(s, y, "-", month, b);
    FieldAt(s, y + 3, "-", day, c);
    FieldAt(s, y + 6, "T", hour, d);
    FieldAt(s, y + 9, ":", minute, e);
    FieldAt(s, y + 12, ":", second, "Z");
    assert s[y + 15] == s[y + 15..][0];
  }

  /** The text of a date with a two-digit month, day, hour, minute and second. */
  lemma FormatReadsBack(c: Civil)
    requires c.month < 100 && c.day < 100 && c.hour < 100 && c.minute < 100 && c.second < 100
    ensures Reads(Format(c), c)
    ensures c.year < 10_000 ==> |Format(c)| == 20
  {
    hide Padded, Numeric, NumberOf;
    assert Pow10(2) == 100 && Pow10(3) == 1000 && Pow10(4) == 10_000;
    PaddedSpells(c.year, 4);
    PaddedSpells(c.month, 2);
    PaddedSpells(c.day, 2);
    PaddedSpells(c.hour, 2);
    PaddedSpells(c.minute, 2);
    PaddedSpells(c.second, 2);
    Parts(Format(c), Padded(c.year, 4), Padded(c.month, 2), Padded(c.day, 2), Padded(c.hour, 2), Padded(c.minute, 2), Padded(c.second, 2));
    hide Format;
  }

  /** The text of every clock reading has the form of RFC 3339 section 5.6 and reads back to the date of the
      reading. Before year 10000 it has exactly 20 characters, as the standard's four-digit year wants, and
      the date is that of the second read. */
  lemma NowReadsBack(secs: u64)
    ensures Reads(NowIso(secs), EpochToYmdHms(secs).Widen())
    ensures secs < FIRST_SECOND_OF_YEAR_10000 ==>
              var c := EpochToYmdHms(secs).Widen(); |NowIso(secs)| == 20 && c.Valid() && c.ToSeconds() == secs as nat
  {
    hide EpochToYmdHms, Civil.Valid, Civil.ToSeconds, Format, Reads;
    var d := EpochIsCalendar(secs);
    SmallFields(d);
    FormatReadsBack(EpochToYmdHms(secs).Widen());
    if secs < FIRST_SECOND_OF_YEAR_10000 {
      BeforeYear10000(secs);
    }
  }

  lemma SmallFields(c: Civil)
    requires c.Valid()
    ensures c.month < 100 && c.day < 100 && c.hour < 100 && c.minute < 100 && c.second < 100
  {
  }

  lemma BeforeYear10000(secs: u64)
    requires secs < FIRST_SECOND_OF_YEAR_10000
    ensures var c := EpochToYmdHms(secs).Widen(); c.Valid() && c.ToSeconds() == secs as nat && c.year < 10_000
  {
    hide EpochToYmdHms, Civil.Valid, Civil.ToSeconds;
    EpochExactness(secs);
    YearBelow10000(EpochToYmdHms(secs).Widen());
  }
}
