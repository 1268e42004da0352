/** The set-backed holiday oracle the integration tests plug in
    (BookingRooms.Specs/Integration/Reservations/FakePublicHolidayService.cs). */
module FakePublicHolidays {
  import opened Calendar
  import opened PublicHolidays

  /** The list entry the fake builds for a configured date. */
  function FakeHoliday(date: Date, countryCode: string): (h: PublicHolidayResponse)
    ensures h.date == date && h.countryCode == countryCode && h.types == ["Public"]
  {
    PublicHolidayResponse(date, "Fake Holiday", "Fake Holiday", countryCode, false, true, ["Public"])
  }

  /** `PublicHolidays.Where(d => d.Year == year).Select(...)`: one Public
      entry for each configured date of that year. */
  function FakeYearList(holidays: set<Date>, year: int, countryCode: string): set<PublicHolidayResponse> {
    set d | d in holidays && d.year == year :: FakeHoliday(d, countryCode)
  }

  /** The dates on the list are exactly the configured dates of the year,
      whatever the country code. */
  lemma FakeYearListDates(holidays: set<Date>, year: int, countryCode: string)
    ensures (set h | h in FakeYearList(holidays, year, countryCode) :: h.date)
         == (set d | d in holidays && d.year == year)
  {
    var list := FakeYearList(holidays, year, countryCode);
    forall d | d in holidays && d.year == year
      ensures d in (set h | h in list :: h.date)
    {
      assert FakeHoliday(d, countryCode) in list;
    }
  }

  class FakePublicHolidayService {
    var publicHolidays: set<Date>

    constructor ()
      ensures publicHolidays == {}
    {
      publicHolidays := {};
    }

    /** Builds the year's list from the configured dates and asks whether
        `date` is on it: the answer is membership, whatever the country, and
        dates of other years never count. The configured set is only read. */
    method IsPublicPublicHoliday(date: Date, countryCode: string) returns (r: bool)
      ensures r <==> date in publicHolidays
    {
      var list := FakeYearList(publicHolidays, date.year, countryCode);
      r := exists h :: h in list && h.date == date;
      if date in publicHolidays {
        assert FakeHoliday(date, countryCode) in list;
      }
    }
  }

  /** Every entry the fake makes is typed Public, so the production list rule
      accepts it on its own date. */
  lemma {:induction false} FakeListIsPublicHolidayList(date: Date, countryCode: string)
    ensures IsPublicHolidayIn([FakeHoliday(date, countryCode)], date)
  {
    assert EqualsIgnoreCase("Public", "Public");
  }
}
