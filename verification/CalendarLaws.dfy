/** The conversion gives the calendar's own date, and the only one. */
module CalendarLaws {
  import opened Calendar
  import opened MachineInts
  import opened MarchYears

  /** The March year that holds day `days`, and the day in it. */
  function MarchYearOf(days: nat): nat {
    YearOfEra((days % 146_097) as u32) as nat + 400 * (days / 146_097)
  }

  lemma MarchYearOfBounds(days: nat)
    ensures MarchYearStart(MarchYearOf(days)) <= days < MarchYearStart(MarchYearOf(days) + 1)
  {
    var era, doe := days / 146_097, days % 146_097;
    YearOfEraBounds(doe as u32);
    var yoe := YearOfEra(doe as u32) as nat;
    EraShift(yoe, era);
    EraShift(yoe + 1, era);
  }

  lemma EraShift(yoe: nat, era: nat)
    ensures MarchYearStart(yoe + 400 * era) == MarchYearStart(yoe) + 146_097 * era
  {
    assert (yoe + 400 * era) / 4 == yoe / 4 + 100 * era;
    assert (yoe + 400 * era) / 100 == yoe / 100 + 4 * era;
    assert (yoe + 400 * era) / 400 == yoe / 400 + era;
  }

  /** The era arithmetic of the source finds the same March year and day. */
  lemma EraArithmetic(days: nat)
    ensures var y := MarchYearOf(days);
            && 0 <= days - MarchYearStart(y) < 365 + LeapDay(y + 1)
            && DayOfYear((days % 146_097) as u32) as int == days - MarchYearStart(y)
  {
    var era, doe := days / 146_097, days % 146_097;
    YearOfEraBounds(doe as u32);
    var yoe := YearOfEra(doe as u32) as nat;
    EraShift(yoe, era);
    assert yoe / 400 == 0;
    MarchYearOfBounds(days);
    MarchYearStep(MarchYearOf(days) + 1);
  }

  /** The fixed-width arithmetic computes `MarchDate`. */
  lemma CivilFromDaysUnfolds(days: nat)
    requires days < 0x1_0000_0000_0000
    ensures var y := MarchYearOf(days);
            && 0 <= days - MarchYearStart(y) < 365 + LeapDay(y + 1)
            && var c := MarchDate(y, days - MarchYearStart(y));
            && var r := CivilFromDays(days as i64);
            && r.0 as int == c.year && r.1 as int == c.month && r.2 as int == c.day
  {
    EraArithmetic(days);
    var era := days as i64 / 146_097;
    assert era as int == days / 146_097;
    var doe := (days as i64 - era * 146_097) as u32;
    assert doe == (days % 146_097) as u32;
    YearOfEraBounds(doe);
    assert (YearOfEra(doe) as i64 + era * 400) as int == MarchYearOf(days);
  }

  lemma TimeOfDay(time: nat)
    requires time < 86_400
    ensures 3600 * (time / 3600) + 60 * ((time % 3600) / 60) + time % 60 == time
  {
    assert time % 60 == (time % 3600) % 60;
  }

  lemma EpochTime(secs: u64)
    ensures var r := EpochToYmdHms(secs);
            && r.hour < 24 && r.minute < 60 && r.second < 60
            && 3600 * r.hour as int + 60 * r.minute as int + r.second as int == secs as int % 86_400
  {
    TimeOfDay(secs as nat % 86_400);
  }

  lemma EpochDate(secs: u64) returns (c: Civil)
    ensures c.Valid() && c.DayNumber() == secs as nat / 86_400
    ensures var r := EpochToYmdHms(secs);
            r.year as nat == c.year % 0x1_0000_0000 && r.month as nat == c.month && r.day as nat == c.day
  {
    var days := secs as nat / 86_400 + 719_468;
    assert days < 0x1_0000_0000_0000;
    c := CivilOfDay(days);
    assert days as i64 == (secs / 86_400) as i64 + 719_468;
  }

  lemma CivilOfDay(days: nat) returns (c: Civil)
    requires 719_468 <= days < 0x1_0000_0000_0000
    ensures c.Valid() && c.DayNumber() + 719_468 == days
    ensures var r := CivilFromDays(days as i64);
            r.0 as int == c.year && r.1 as int == c.month && r.2 as int == c.day
  {
    CivilFromDaysUnfolds(days);
    var y := MarchYearOf(days);
    MarchDateIsRight(y, days - MarchYearStart(y));
    c := MarchDate(y, days - MarchYearStart(y));
  }

  /** For every second count the result is the calendar's own date and time, except that the
      year is cut to 32 bits. No step under- or overflows: `EpochToYmdHms` is well-formed. */
  lemma EpochIsCalendar(secs: u64) returns (c: Civil)
    ensures c.Valid() && c.ToSeconds() == secs as nat
    ensures EpochToYmdHms(secs).Widen() == c.(year := c.year % 0x1_0000_0000)
  {
    var date := EpochDate(secs);
    EpochTime(secs);
    c := EpochToYmdHms(secs).Widen().(year := date.year);
    assert c.DayNumber() == date.DayNumber();
  }

  // ----- The result is the only one -----

  lemma {:induction false} YearsAddUp(y: nat, later: nat)
    requires 1970 <= y < later
    ensures DaysBeforeYear(y) + DaysInYear(y) <= DaysBeforeYear(later)
  {
    if y + 1 < later {
      YearsAddUp(y, later - 1);
    }
  }

  lemma {:induction false} MonthsAddUp(y: nat, m: nat, later: nat)
    requires 1 <= m < later <= 12
    ensures DaysBeforeMonth(y, m) + DaysInMonth(y, m) <= DaysBeforeMonth(y, later)
  {
    if m + 1 < later {
      MonthsAddUp(y, m, later - 1);
    }
  }

  lemma DayStaysInYear(c: Civil)
    requires c.Valid()
    ensures DaysBeforeYear(c.year) <= c.DayNumber() < DaysBeforeYear(c.year) + DaysInYear(c.year)
  {
    MonthTable(c.year, 12);
    if c.month < 12 {
      MonthsAddUp(c.year, c.month, 12);
    }
  }

  /** Later fields mean a later second: no two dates and times share a second count. */
  lemma BeforeIsEarlier(a: Civil, b: Civil)
    requires a.Valid() && b.Valid() && a.Before(b)
    ensures a.ToSeconds() < b.ToSeconds()
  {
    if a.year < b.year {
      DayStaysInYear(a);
      DayStaysInYear(b);
      YearsAddUp(a.year, b.year);
    } else if a.month < b.month {
      MonthsAddUp(a.year, a.month, b.month);
    }
  }

  lemma EarlierIsBefore(a: Civil, b: Civil)
    requires a.Valid() && b.Valid() && a.ToSeconds() < b.ToSeconds()
    ensures a.Before(b)
  {
    if b.Before(a) {
      BeforeIsEarlier(b, a);
    }
  }

  /** The first second of year 2^32, where the year no longer fits. */
  const FIRST_SECOND_OF_YEAR_2_32: nat := 135_536_014_634_284_800

  lemma YearFits(c: Civil)
    requires c.Valid()
    ensures c.year < 0x1_0000_0000 <==> c.ToSeconds() < FIRST_SECOND_OF_YEAR_2_32
  {
    YearAgainst(c, 0x1_0000_0000);
  }

  lemma FirstSecondOfYear(c: Civil)
    requires 1970 <= c.year && c == Civil(c.year, 1, 1, 0, 0, 0)
    ensures c.Valid() && c.ToSeconds() == 86_400 * (MarchYearStart(c.year - 1) + 306 - 719_468)
  {
    YearStartInMarchDays(c.year);
  }

  /** A date is before year `y` exactly when its second is before the first second of `y`. */
  lemma YearAgainst(c: Civil, y: nat)
    requires c.Valid() && 1970 < y
    ensures c.year < y <==> c.ToSeconds() < 86_400 * (MarchYearStart(y - 1) + 306 - 719_468)
  {
    YearStartInMarchDays(y);
    DayStaysInYear(c);
    if c.year < y {
      YearsAddUp(c.year, y);
    } else if c.year > y {
      YearsAddUp(y, c.year);
    }
  }

  lemma CutYearNamesAnotherSecond(c: Civil, cut: Civil)
    requires c.Valid() && cut == c.(year := c.year % 0x1_0000_0000)
    ensures (cut.Valid() && cut.ToSeconds() == c.ToSeconds()) <==> c.ToSeconds() < FIRST_SECOND_OF_YEAR_2_32
  {
    YearFits(c);
    if c.year < 0x1_0000_0000 {
      assert cut == c;
    } else if cut.Valid() {
      YearFits(cut);
    }
  }

  /** The conversion names the right second exactly while the year fits its 32 bits. */
  lemma EpochExactness(secs: u64)
    ensures var c := EpochToYmdHms(secs).Widen();
            (c.Valid() && c.ToSeconds() == secs as nat) <==> secs as nat < FIRST_SECOND_OF_YEAR_2_32
  {
    var c := EpochIsCalendar(secs);
    CutYearNamesAnotherSecond(c, EpochToYmdHms(secs).Widen());
  }

  /** The conversion undoes the calendar's own second count, for every date that fits. */
  lemma EpochInvertsToSeconds(c: Civil)
    requires c.Valid() && c.year < 0x1_0000_0000
    ensures c.ToSeconds() < 0x1_0000_0000_0000_0000
    ensures EpochToYmdHms(c.ToSeconds() as u64).Widen() == c
  {
    YearFits(c);
    var secs := c.ToSeconds() as u64;
    EpochExactness(secs);
    var found := EpochToYmdHms(secs).Widen();
    if found.Before(c) {
      BeforeIsEarlier(found, c);
    } else if c.Before(found) {
      BeforeIsEarlier(c, found);
    }
  }
}
