/** Unix seconds to a proleptic Gregorian date and time, and the proof that it is the calendar.

    The reference is the calendar itself: the leap-year rule of RFC 3339 Appendix C, month
    lengths, and day numbers obtained by adding up the years since 1970. The conversion of the
    stores works instead by dividing into 400-year eras that start on the first of March. */
module Calendar {
  import opened MachineInts

  // ----- The calendar -----

  predicate IsLeap(y: nat) {
    y % 4 == 0 && (y % 100 != 0 || y % 400 == 0)
  }

  function DaysInYear(y: nat): nat {
    if IsLeap(y) then 366 else 365
  }

  function DaysInMonth(y: nat, m: nat): nat
    requires 1 <= m <= 12
  {
    if m == 2 then (if IsLeap(y) then 29 else 28)
    else if m == 4 || m == 6 || m == 9 || m == 11 then 30
    else 31
  }

  /** Days from 1970-01-01 to the first of January of year `y`. */
  function DaysBeforeYear(y: nat): nat
    requires 1970 <= y
  {
    if y == 1970 then 0 else DaysBeforeYear(y - 1) + DaysInYear(y - 1)
  }

  /** Days from the first of January to the first of month `m`. */
  function DaysBeforeMonth(y: nat, m: nat): nat
    requires 1 <= m <= 12
  {
    if m == 1 then 0 else DaysBeforeMonth(y, m - 1) + DaysInMonth(y, m - 1)
  }

  datatype Civil = Civil(year: nat, month: nat, day: nat, hour: nat, minute: nat, second: nat)
  {
    predicate Valid() {
      && 1970 <= year
      && 1 <= month <= 12
      && 1 <= day <= DaysInMonth(year, month)
      && hour < 24 && minute < 60 && second < 60
    }

    /** Days since 1970-01-01. */
    function DayNumber(): nat
      requires Valid()
    {
      DaysBeforeYear(year) + DaysBeforeMonth(year, month) + day - 1
    }

    /** Seconds since 1970-01-01T00:00:00Z. */
    function ToSeconds(): nat
      requires Valid()
    {
      86_400 * DayNumber() + 3600 * hour + 60 * minute + second
    }

    /** The order of the fields, most significant first. */
    predicate Before(other: Civil) {
      year < other.year || (year == other.year &&
      (month < other.month || (month == other.month &&
      (day < other.day || (day == other.day &&
      (hour < other.hour || (hour == other.hour &&
      (minute < other.minute || (minute == other.minute && second < other.second)))))))))
    }
  }

  // ----- The conversion -----

  datatype YmdHms = YmdHms(year: u32, month: u32, day: u32, hour: u32, minute: u32, second: u32)
  {
    function Widen(): Civil {
      Civil(year as nat, month as nat, day as nat, hour as nat, minute as nat, second as nat)
    }
  }

  /** Year of the era (0..399) of day-of-era `doe`. */
  function YearOfEra(doe: u32): u32
    requires doe < 146_097
  {
    (doe - doe / 1_460 + doe / 36_524 - doe / 146_096) / 365
  }

  /** Day (0..365) of the era year, counted from the first of March. */
  function DayOfYear(doe: u32): (doy: u32)
    requires doe < 146_097
    ensures doy <= 365
  {
    DayOfYearFits(doe);
    var yoe := YearOfEra(doe);
    doe - (365 * yoe + yoe / 4 - yoe / 100)
  }

  /** Month and day of day `doy` of a year that starts on the first of March. */
  function MonthAndDay(doy: u32): (u32, u32)
    requires doy <= 365
  {
    var mp := (5 * doy + 2) / 153;
    var d := doy - (153 * mp + 2) / 5 + 1;
    (if mp < 10 then mp + 3 else mp - 9, d)
  }

  /** Year, month and day of a count of days since 0000-03-01. */
  function CivilFromDays(days: i64): (i64, u32, u32)
    requires 0 <= days < 0x1_0000_0000_0000
  {
    var era := days / 146_097; // `days` is never negative: the branch for negative days is dead
    var doe := (days - era * 146_097) as u32;
    YearOfEraBounds(doe);
    var y := YearOfEra(doe) as i64 + era * 400;
    var doy := DayOfYear(doe);
    var (m, d) := MonthAndDay(doy);
    (y + if m <= 2 then 1 else 0, m, d)
  }

  /** Every intermediate value has the width the source gives it. */
  function EpochToYmdHms(secs: u64): YmdHms {
    var days := (secs / 86_400) as i64 + 719_468;
    var time := (secs % 86_400) as u32;
    var (year, m, d) := CivilFromDays(days);
    YmdHms(TruncateToU32(year), m, d, time / 3600, (time % 3600) / 60, time % 60)
  }

  // ----- Years that start in March -----

  /** Days from 0000-03-01 to the first of March of year `y`. */
  function MarchYearStart(y: nat): nat {
    365 * y + y / 4 - y / 100 + y / 400
  }

  /** The cumulative corrections turn day-of-era into 365 days a year. `c`, `q` and `r` are the
      century, the group of four years and the year in it; only `carry` needs an argument. */
  lemma CorrectedDays(c: nat, q: nat, r: nat, doy: nat)
    requires c <= 3 && q <= 24 && r <= 3
    requires doy <= 364 || (doy == 365 && r == 3 && (q < 24 || c == 3))
    ensures var x := 36_524 * c + 1461 * q + 365 * r + doy;
            (x - x / 1460 + x / 36_524 - x / 146_096) / 365 == 100 * c + 4 * q + r
  {
    var x := 36_524 * c + 1461 * q + 365 * r + doy;
    var carry := if 24 * c + q + 365 * r + doy < 1460 then 0 else 1;
    assert x == 1460 * (25 * c + q) + (24 * c + q + 365 * r + doy);
    assert x / 1460 == 25 * c + q + carry;
    var late := if x == 146_096 then 1 else 0;
    assert x / 36_524 == c + late;
    assert x / 146_096 == late;
  }

  lemma MarchYearStartOf(c: nat, q: nat, r: nat)
    requires c <= 3 && q <= 24 && r <= 3
    ensures MarchYearStart(100 * c + 4 * q + r) == 36_524 * c + 1461 * q + 365 * r
  {
    var y := 100 * c + 4 * q + r;
    assert y / 4 == 25 * c + q;
    assert y / 100 == c;
    assert y / 400 == 0;
  }

  /** The length of a March year: day 365 exists only before a leap February. */
  lemma MarchYearLength(c: nat, q: nat, r: nat)
    requires c <= 3 && q <= 24 && r <= 3
    ensures var y := 100 * c + 4 * q + r;
            MarchYearStart(y + 1) - MarchYearStart(y) == if r == 3 && (q < 24 || c == 3) then 366 else 365
  {
    var y := 100 * c + 4 * q + r;
    assert (y + 1) / 4 == 25 * c + q + if r == 3 then 1 else 0;
    assert (y + 1) / 100 == c + if r == 3 && q == 24 then 1 else 0;
    assert (y + 1) / 400 == if r == 3 && q == 24 && c == 3 then 1 else 0;
    assert y / 4 == 25 * c + q;
    assert y / 100 == c;
    assert y / 400 == 0;
  }

  /** Every day of an era is day `doy` of year `r` of group `q` of century `c`. */
  lemma SplitEra(x: nat) returns (c: nat, q: nat, r: nat, doy: nat)
    requires x < 146_097
    ensures c <= 3 && q <= 24 && r <= 3
    ensures doy <= 364 || (doy == 365 && r == 3 && (q < 24 || c == 3))
    ensures x == 36_524 * c + 1461 * q + 365 * r + doy
  {
    c := if x < 36_524 then 0 else if x < 73_048 then 1 else if x < 109_572 then 2 else 3;
    var inCentury := x - 36_524 * c;
    q := inCentury / 1461;
    var inFour := inCentury - 1461 * q;
    r := if inFour < 365 then 0 else if inFour < 730 then 1 else if inFour < 1095 then 2 else 3;
    doy := inFour - 365 * r;
  }

  /** The division by 365 lands in the March year that holds `doe`. */
  lemma YearOfEraBounds(doe: u32)
    requires doe < 146_097
    ensures YearOfEra(doe) < 400
    ensures MarchYearStart(YearOfEra(doe) as nat) <= doe as nat < MarchYearStart(YearOfEra(doe) as nat + 1)
  {
    var c, q, r, doy := SplitEra(doe as nat);
    CorrectedDays(c, q, r, doy);
    MarchYearStartOf(c, q, r);
    MarchYearLength(c, q, r);
    assert YearOfEra(doe) as nat == 100 * c + 4 * q + r;
  }

  /** The day of the year is computed in 32 bits without underflow. */
  lemma DayOfYearFits(doe: u32)
    requires doe < 146_097
    ensures var yoe := YearOfEra(doe);
            && yoe < 400
            && 365 * yoe + yoe / 4 - yoe / 100 <= doe <= 365 * yoe + yoe / 4 - yoe / 100 + 365
  {
    YearOfEraBounds(doe);
    var yoe := YearOfEra(doe) as nat;
    assert yoe / 400 == 0;
    MarchYearStep(yoe + 1);
  }

  function LeapDay(y: nat): nat {
    if IsLeap(y) then 1 else 0
  }

  lemma DivisionSteps(y: nat)
    requires 0 < y
    ensures y / 4 == (y - 1) / 4 + if y % 4 == 0 then 1 else 0
    ensures y / 100 == (y - 1) / 100 + if y % 100 == 0 then 1 else 0
    ensures y / 400 == (y - 1) / 400 + if y % 400 == 0 then 1 else 0
  {
  }

  lemma MarchYearStep(y: nat)
    requires 0 < y
    ensures MarchYearStart(y) == MarchYearStart(y - 1) + 365 + LeapDay(y)
  {
    DivisionSteps(y);
    MultiplesNest(y);
  }

  lemma MultiplesNest(y: nat)
    ensures y % 400 == 0 ==> y % 100 == 0
    ensures y % 100 == 0 ==> y % 4 == 0
  {
    if y % 400 == 0 {
      assert y == 100 * (4 * (y / 400));
    }
    if y % 100 == 0 {
      assert y == 4 * (25 * (y / 100));
    }
  }
}
