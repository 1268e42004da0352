/** Instants and calendar dates. An instant is a `DateTime` in UTC, counted in
    ticks of 100 ns since 0001-01-01T00:00; a `Date` is a `DateOnly`. */
module Calendar {

  type Ticks = nat

  const TicksPerDay: nat := 864_000_000_000

  datatype Date = Date(year: int, month: int, day: int)

  /** The proleptic Gregorian date `z` days after 0000-03-01 (the usual
      civil-from-days computation on 400-year eras). */
  function CivilFromDays(z: nat): Date {
    var era := z / 146097;
    var doe := z - era * 146097;
    var yoe := (doe - doe / 1460 + doe / 36524 - doe / 146096) / 365;
    var doy := doe - (365 * yoe + yoe / 4 - yoe / 100);
    var mp := (5 * doy + 2) / 153;
    var day := doy - (153 * mp + 2) / 5 + 1;
    var month := if mp < 10 then mp + 3 else mp - 9;
    var year := yoe + era * 400 + (if month <= 2 then 1 else 0);
    Date(year, month, day)
  }

  /** `DateOnly.FromDateTime`: the calendar date of an instant. */
  function DateOf(t: Ticks): Date {
    // 306 days separate 0000-03-01 from 0001-01-01
    CivilFromDays(t / TicksPerDay + 306)
  }

  /** The first instant is 0001-01-01. */
  lemma DateOfFirstInstant()
    ensures DateOf(0) == Date(1, 1, 1)
  {
    assert 0 / TicksPerDay + 306 == 306;
    assert 306 / 146097 == 0 && 306 / 1460 == 0 && 306 / 36524 == 0 && 306 / 365 == 0;
    assert (5 * 306 + 2) / 153 == 10 && (153 * 10 + 2) / 5 == 306;
  }

  /** The holiday test books 2025-01-01 at 10:00 local time. On a host whose
      zone is UTC, the conversion yields 2025-01-01 10:00 UTC, which falls on
      that date; the tick before that midnight falls on the day before. */
  lemma DateOfHolidayTestInstant()
    ensures DateOf(638713224000000000) == Date(2025, 1, 1)
    ensures DateOf(638712864000000000 - 1) == Date(2024, 12, 31)
  {
    assert 638713224000000000 / TicksPerDay == 739251;
    assert (638712864000000000 - 1) / TicksPerDay == 739250;
    assert 739557 / 146097 == 5;
    assert 739556 / 146097 == 5;
  }
}
