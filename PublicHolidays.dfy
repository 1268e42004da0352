/** The public-holiday oracle (Infrastructure/PublicHolidays/PublicHolidayService.cs):
    a memo cache of each (country, year) holiday list in front of an HTTP
    service, and the "is this date a Public holiday" question asked of a list.
    The HTTP client is a deterministic function from (year, countryCode) to a
    response; JSON decoding and the 12-hour expiry of cache entries are not
    modelled. */
module PublicHolidays {
  import opened Optional
  import opened Results
  import opened Text
  import opened Calendar

  datatype PublicHolidayResponse = PublicHolidayResponse(
    date: Date,
    localName: string,
    name: string,
    countryCode: string,
    fixed: bool,
    global: bool,
    types: seq<string>)

  /** Upper-casing as ordinal case-insensitive comparison does it, for ASCII letters. */
  function ToUpperAscii(c: char): char {
    if 'a' <= c <= 'z' then (c as int - 32) as char else c
  }

  predicate EqualsIgnoreCase(a: string, b: string) {
    |a| == |b| && forall i :: 0 <= i < |a| ==> ToUpperAscii(a[i]) == ToUpperAscii(b[i])
  }

  /** `h.Types.Any(t => string.Equals(t, "Public", OrdinalIgnoreCase))` */
  function HasPublicType(types: seq<string>): (b: bool)
    ensures b <==> exists i :: 0 <= i < |types| && EqualsIgnoreCase(types[i], "Public")
  {
    if types == [] then false
    else EqualsIgnoreCase(types[0], "Public") || HasPublicType(types[1..])
  }

  /** The list answer of `IsPublicPublicHolidayAsync`: some entry is dated `date`
      and is typed Public, in any letter case. */
  function IsPublicHolidayIn(holidays: seq<PublicHolidayResponse>, date: Date): (b: bool)
    ensures b <==> exists i :: 0 <= i < |holidays| && holidays[i].date == date && HasPublicType(holidays[i].types)
  {
    if holidays == [] then false
    else (holidays[0].date == date && HasPublicType(holidays[0].types)) || IsPublicHolidayIn(holidays[1..], date)
  }

  /** Letter case does not matter, and a holiday that is not typed Public
      (a bank or school holiday) does not count. */
  lemma PublicTypeIgnoresCase()
    ensures HasPublicType(["PUBLIC"]) && HasPublicType(["Bank", "public"])
    ensures !HasPublicType(["Bank", "School"]) && !HasPublicType([])
  {
    assert EqualsIgnoreCase("public", "Public");
    assert EqualsIgnoreCase("PUBLIC", "Public");
    assert !EqualsIgnoreCase("Bank", "Public");
    assert ToUpperAscii("School"[0]) != ToUpperAscii("Public"[0]);
  }

  /** `PublicHolidays:{countryCode}:{year}` */
  function CacheKey(countryCode: string, year: int): string {
    "PublicHolidays:" + countryCode + ":" + IntToString(year)
  }

  /** Distinct (country, year) pairs use distinct cache entries, even when a
      country code contains a colon: the year is what follows the last colon. */
  lemma {:induction false} CacheKeyInjective(c1: string, y1: int, c2: string, y2: int)
    requires CacheKey(c1, y1) == CacheKey(c2, y2)
    ensures c1 == c2 && y1 == y2
  {
    var k := CacheKey(c1, y1);
    var s1, s2 := IntToString(y1), IntToString(y2);
    assert k == "PublicHolidays:" + c1 + ":" + s1;
    assert k == "PublicHolidays:" + c2 + ":" + s2;
    if |s1| < |s2| {
      ColonBeforeSuffix(c1, s1);
      assert false;
    } else if |s2| < |s1| {
      ColonBeforeSuffix(c2, s2);
      assert false;
    }
    assert s1 == k[|k| - |s1|..] == s2;
    assert c1 == k[15..|k| - |s1| - 1] == c2;
    IntToStringInjective(y1, y2);
  }

  lemma ColonBeforeSuffix(c: string, s: string)
    ensures var k := "PublicHolidays:" + c + ":" + s; k[|k| - |s| - 1] == ':'
  {
  }

  datatype HttpResponse = HttpResponse(statusCode: int, body: Option<seq<PublicHolidayResponse>>)

  predicate IsSuccessStatusCode(statusCode: int) {
    200 <= statusCode <= 299
  }

  /** `ReadFromJsonAsync<...>() ?? []`: a null body is an empty list. */
  function HolidaysOf(response: HttpResponse): (hs: seq<PublicHolidayResponse>)
    ensures response.body.None? ==> hs == []
    ensures response.body.Some? ==> hs == response.body.value
  {
    match response.body
    case None => []
    case Some(list) => list
  }

  class PublicHolidayService {
    /** `GET /api/v3/PublicHolidays/{year}/{countryCode}` */
    const fetch: (int, string) -> HttpResponse
    var cache: map<string, seq<PublicHolidayResponse>>
    /** Every request sent to the holiday service, oldest first. */
    ghost var requests: seq<(int, string)>
    /** Every `IsPublicPublicHolidayAsync` question asked, oldest first. */
    ghost var queries: seq<(Date, string)>

    constructor (fetch: (int, string) -> HttpResponse)
      ensures this.fetch == fetch && cache == map[] && requests == [] && queries == []
    {
      this.fetch := fetch;
      cache := map[];
      requests := [];
      queries := [];
    }

    /** What `GetPublicHolidaysAsync(year, countryCode)` yields in the current state. */
    ghost function HolidaysFor(year: int, countryCode: string): Completion<seq<PublicHolidayResponse>>
      reads this
    {
      var key := CacheKey(countryCode, year);
      if key in cache then Returned(cache[key])
      else
        var response := fetch(year, countryCode);
        if IsSuccessStatusCode(response.statusCode) then Returned(HolidaysOf(response))
        else Threw(HttpRequestFailed(response.statusCode))
    }

    /** What `IsPublicPublicHolidayAsync(date, countryCode)` answers in the current state. */
    ghost function Answer(date: Date, countryCode: string): Completion<bool>
      reads this
    {
      match HolidaysFor(date.year, countryCode)
      case Returned(holidays) => Returned(IsPublicHolidayIn(holidays, date))
      case Threw(e) => Threw(e)
    }

    /** `GetPublicHolidaysAsync`: a hit returns the cached list and sends
        nothing; a miss sends one request and caches the list only on success. */
    method GetPublicHolidays(year: int, countryCode: string) returns (c: Completion<seq<PublicHolidayResponse>>)
      modifies this
      ensures c == old(HolidaysFor(year, countryCode))
      ensures queries == old(queries)
      ensures CacheKey(countryCode, year) in old(cache) ==>
        cache == old(cache) && requests == old(requests)
      ensures CacheKey(countryCode, year) !in old(cache) ==>
        requests == old(requests) + [(year, countryCode)] &&
        cache == (if c.Returned? then old(cache)[CacheKey(countryCode, year) := c.value] else old(cache))
      ensures c.Returned? ==> CacheKey(countryCode, year) in cache && cache[CacheKey(countryCode, year)] == c.value
    {
      var key := CacheKey(countryCode, year);
      if key in cache {
        return Returned(cache[key]);
      }
      var response := fetch(year, countryCode);
      requests := requests + [(year, countryCode)];
      if !IsSuccessStatusCode(response.statusCode) {
        return Threw(HttpRequestFailed(response.statusCode));
      }
      var holidays := HolidaysOf(response);
      cache := cache[key := holidays];
      return Returned(holidays);
    }

    /** `IsPublicPublicHolidayAsync`: consults only the list of `date`'s year. */
    method IsPublicPublicHoliday(date: Date, countryCode: string) returns (c: Completion<bool>)
      modifies this
      ensures c == old(Answer(date, countryCode))
      ensures queries == old(queries) + [(date, countryCode)]
      ensures CacheKey(countryCode, date.year) in old(cache) ==>
        cache == old(cache) && requests == old(requests)
      ensures CacheKey(countryCode, date.year) !in old(cache) ==>
        requests == old(requests) + [(date.year, countryCode)]
      ensures cache.Keys <= old(cache.Keys) + {CacheKey(countryCode, date.year)}
      ensures forall k :: k in old(cache) ==> k in cache && cache[k] == old(cache[k])
      ensures old(HolidaysFor(date.year, countryCode)).Returned? ==>
        CacheKey(countryCode, date.year) in cache &&
        cache[CacheKey(countryCode, date.year)] == old(HolidaysFor(date.year, countryCode)).value
      ensures old(HolidaysFor(date.year, countryCode)).Threw? ==> cache == old(cache)
    {
      queries := queries + [(date, countryCode)];
      var holidays := GetPublicHolidays(date.year, countryCode);
      match holidays
      case Threw(e) => return Threw(e);
      case Returned(list) => return Returned(IsPublicHolidayIn(list, date));
    }
  }
}
