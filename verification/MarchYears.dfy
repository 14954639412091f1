/** Years that start in March against the calendar: year starts, months and days. */
module MarchYears {
  import opened Calendar
  import opened MachineInts

  /** The first of January is 306 days after the first of March before it. */
  lemma {:induction false} YearStartInMarchDays(y: nat)
    requires 1970 <= y
    ensures DaysBeforeYear(y) + 719_468 == MarchYearStart(y - 1) + 306
  {
    if y > 1970 {
      YearStartInMarchDays(y - 1);
      MarchYearStep(y - 1);
    }
  }

  lemma MonthTable(y: nat, m: nat)
    requires 1 <= m <= 12
    ensures DaysBeforeMonth(y, m) ==
              [0, 31, 59, 90, 120, 151, 181, 212, 243, 273, 304, 334][m - 1] + if m > 2 then LeapDay(y) else 0
  {
    assert DaysBeforeMonth(y, 2) == 31;
    assert DaysBeforeMonth(y, 3) == 59 + LeapDay(y);
    assert DaysBeforeMonth(y, 5) == 120 + LeapDay(y);
    assert DaysBeforeMonth(y, 7) == 181 + LeapDay(y);
    assert DaysBeforeMonth(y, 9) == 243 + LeapDay(y);
    assert DaysBeforeMonth(y, 11) == 304 + LeapDay(y);
  }

  /** Day `doy` of the March year `y`. */
  function MarchDate(y: nat, doy: nat): Civil
    requires doy <= 365
  {
    var (m, d) := MonthAndDay(doy as u32);
    Civil(y + if m <= 2 then 1 else 0, m as nat, d as nat, 0, 0, 0)
  }

  /** The linear month formula: `mp` is the month of a March year that holds day `doy`. */
  lemma MonthFormula(doy: nat)
    requires doy <= 365
    ensures var mp := (5 * doy + 2) / 153;
            && mp <= 11
            && [0, 31, 61, 92, 122, 153, 184, 214, 245, 275, 306, 337][mp] == (153 * mp + 2) / 5 <= doy
            && (mp < 11 ==> doy < [0, 31, 61, 92, 122, 153, 184, 214, 245, 275, 306, 337][mp + 1])
  {
  }

  lemma MarchDateFields(y: nat, doy: nat)
    requires doy <= 365
    ensures var mp := (5 * doy + 2) / 153;
            && mp <= 11
            && MarchDate(y, doy) ==
                 Civil(y + if mp < 10 then 0 else 1, if mp < 10 then mp + 3 else mp - 9,
                       doy + 1 - [0, 31, 61, 92, 122, 153, 184, 214, 245, 275, 306, 337][mp], 0, 0, 0)
  {
    MonthFormula(doy);
  }

  /** Days before a month, counted from the first of March of year `y` or the year before. */
  lemma DayNumberFromMarch(c: Civil)
    requires c.Valid()
    ensures c.DayNumber() + 719_468 - (c.day - 1) ==
              if c.month < 3 then MarchYearStart(c.year - 1) + [306, 337][c.month - 1]
              else MarchYearStart(c.year) + [0, 31, 61, 92, 122, 153, 184, 214, 245, 275][c.month - 3]
  {
    MonthTable(c.year, c.month);
    YearStartInMarchDays(c.year);
    MarchYearStep(c.year);
  }

  /** That month and day are right on every day of a March year, leap or not. */
  lemma MarchDateIsRight(y: nat, doy: nat)
    requires doy < 365 + LeapDay(y + 1)
    requires 719_468 <= MarchYearStart(y) + doy
    ensures MarchDate(y, doy).Valid()
    ensures MarchDate(y, doy).DayNumber() + 719_468 == MarchYearStart(y) + doy
  {
    MonthFormula(doy);
    MarchDateFields(y, doy);
    YearLowerBound(y, doy);
    DayNumberFromMarch(MarchDate(y, doy));
  }

  lemma YearLowerBound(y: nat, doy: nat)
    requires doy < 365 + LeapDay(y + 1)
    requires 719_468 <= MarchYearStart(y) + doy
    ensures 1969 <= y
    ensures y == 1969 ==> 306 <= doy
  {
    assert MarchYearStart(1969) == 719_162;
    if y < 1969 {
      MarchYearStep(y + 1);
    }
  }
}
