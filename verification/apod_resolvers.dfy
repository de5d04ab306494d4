/** The GraphQL resolvers of `nasa-graphql-api`: date validation, the
    inclusive date range, and the cache-or-fetch decisions of `getAPODs`,
    `getAPOD` and `getNEOs` over the two SQLite tables. The clock (`now`,
    and `today` as a date string), the configured lifetime `env`, a failing
    cache read `readFails`, and NASA's answers are parameters. */
module ApodResolvers {
  import opened Wrappers
  import opened Text
  import opened Calendar
  import opened NasaService
  import opened SqlCache
  import ApodModel
  import NeoModel

  const InvalidDateFormat := "Invalid date format. Use YYYY-MM-DD"
  const StartAfterEnd := "Start date must be before or equal to end date"

  /** `isValidDate`: the `YYYY-MM-DD` shape, and a date JavaScript accepts
      (month 1 to 12, day 1 to 31). */
  function IsValidDate(s: string): (r: bool)
    ensures r ==> HasDateShape(s)
    ensures r <==> ParseDate(s).Some?
  {
    HasDateShape(s) && ParseDate(s).Some?
  }

  /** Every date the API prints is accepted back. */
  lemma FormattedDatesAreValid(d: Date)
    requires IsCalendarDate(d) && d.year <= 9999
    ensures IsValidDate(FormatDate(d))
  {
    ParseFormat(d);
  }

  // ---------------------------------------------------------------------
  // getDateRange

  /** The printed days from `d` to `end`, both included. */
  function DaysUntil(d: Date, end: Date): seq<string>
    requires IsCalendarDate(d) && IsCalendarDate(end) && end.year <= 9999
    decreases Ordinal(end) - Ordinal(d)
  {
    if Ordinal(d) > Ordinal(end) then []
    else
      OrdinalYearBound(d, end);
      [FormatDate(d)] + DaysUntil(NextDay(d), end)
  }

  /** The dates `getDateRange` lists: none when a bound is Invalid Date,
      since every comparison with NaN is false. */
  function DateRange(startDate: string, endDate: string): seq<string> {
    var s := ParseDate(startDate);
    var e := ParseDate(endDate);
    if s.None? || e.None? then [] else DaysUntil(s.value, e.value)
  }

  /** A date string that prints back as itself, i.e. one without a day
      past the end of its month. */
  predicate Canonical(s: string) {
    ParseDate(s).Some? && FormatDate(ParseDate(s).value) == s
  }

  lemma {:induction false} DaysUntilFacts(d: Date, end: Date)
    requires IsCalendarDate(d) && IsCalendarDate(end) && end.year <= 9999
    ensures |DaysUntil(d, end)| == if Ordinal(d) > Ordinal(end) then 0 else Ordinal(end) - Ordinal(d) + 1
    ensures forall i :: 0 <= i < |DaysUntil(d, end)| ==>
      ParseDate(DaysUntil(d, end)[i]).Some? && Canonical(DaysUntil(d, end)[i]) &&
      Ordinal(ParseDate(DaysUntil(d, end)[i]).value) == Ordinal(d) + i
    ensures forall i :: 0 <= i < |DaysUntil(d, end)| - 1 ==>
      ParseDate(DaysUntil(d, end)[i + 1]) == Some(NextDay(ParseDate(DaysUntil(d, end)[i]).value))
    ensures |DaysUntil(d, end)| > 0 ==> ParseDate(DaysUntil(d, end)[0]) == Some(d)
    decreases Ordinal(end) - Ordinal(d)
  {
    if Ordinal(d) <= Ordinal(end) {
      var r := DaysUntil(d, end);
      var n := NextDay(d);
      OrdinalYearBound(d, end);
      ParseFormat(d);
      DaysUntilFacts(n, end);
      var tail := DaysUntil(n, end);
      assert r == [FormatDate(d)] + tail;
      forall i | 0 <= i < |r|
        ensures ParseDate(r[i]).Some? && Canonical(r[i]) && Ordinal(ParseDate(r[i]).value) == Ordinal(d) + i
      {
        if i > 0 {
          assert r[i] == tail[i - 1];
        }
      }
      forall i | 0 <= i < |r| - 1
        ensures ParseDate(r[i + 1]) == Some(NextDay(ParseDate(r[i]).value))
      {
        assert r[i + 1] == tail[i];
        if i > 0 {
          assert r[i] == tail[i - 1];
        }
      }
    }
  }

  /** `getDateRange` lists consecutive days from start to end inclusive, one
      per day, each printed canonically; it is empty when start is after end
      or a bound is invalid, and otherwise starts with the start date (as
      printed back, which is the start date itself when canonical). */
  lemma DateRangeFacts(startDate: string, endDate: string)
    ensures ParseDate(startDate).None? || ParseDate(endDate).None? ==> DateRange(startDate, endDate) == []
    ensures ParseDate(startDate).Some? && ParseDate(endDate).Some? ==>
      var s, e := Ordinal(ParseDate(startDate).value), Ordinal(ParseDate(endDate).value);
      && (s > e ==> DateRange(startDate, endDate) == [])
      && (s <= e ==> |DateRange(startDate, endDate)| == e - s + 1)
      && (s <= e ==> DateRange(startDate, endDate)[0] == FormatDate(ParseDate(startDate).value))
      && (s <= e && Canonical(startDate) ==> DateRange(startDate, endDate)[0] == startDate)
      && (forall i :: 0 <= i < |DateRange(startDate, endDate)| ==>
            Canonical(DateRange(startDate, endDate)[i]) &&
            Ordinal(ParseDate(DateRange(startDate, endDate)[i]).value) == s + i)
      && (forall i :: 0 <= i < |DateRange(startDate, endDate)| - 1 ==>
            ParseDate(DateRange(startDate, endDate)[i + 1]) == Some(NextDay(ParseDate(DateRange(startDate, endDate)[i]).value)))
  {
    var s := ParseDate(startDate);
    var e := ParseDate(endDate);
    if s.Some? && e.Some? {
      DaysUntilFacts(s.value, e.value);
      var r := DateRange(startDate, endDate);
      if Ordinal(s.value) <= Ordinal(e.value) {
        OrdinalYearBound(s.value, e.value);
        assert r[0] == FormatDate(s.value);
      }
    }
  }

  /** The loop of `getDateRange`, stepping `current` a day at a time. */
  method GetDateRange(startDate: string, endDate: string) returns (dates: seq<string>)
    ensures dates == DateRange(startDate, endDate)
  {
    dates := [];
    var start := ParseDate(startDate);
    var end := ParseDate(endDate);
    if start.None? || end.None? {
      return;
    }
    var current := start.value;
    while Ordinal(current) <= Ordinal(end.value)
      invariant IsCalendarDate(current)
      invariant dates + DaysUntil(current, end.value) == DaysUntil(start.value, end.value)
      decreases Ordinal(end.value) - Ordinal(current)
    {
      OrdinalYearBound(current, end.value);
      assert DaysUntil(current, end.value) == [FormatDate(current)] + DaysUntil(NextDay(current), end.value);
      dates := dates + [FormatDate(current)];
      current := NextDay(current);
    }
    assert DaysUntil(current, end.value) == [];
  }

  // ---------------------------------------------------------------------
  // Shaping

  /** `transformRawAPOD`: every field copied unchanged. */
  function TransformRaw(raw: Apod): (a: Apod)
    ensures a == raw
  {
    Apod(raw.date, raw.title, raw.url, raw.hdurl, raw.explanation, raw.mediaType, raw.serviceVersion, raw.copyright)
  }

  /** The raw object `getNEOs` rebuilds from a NEO to cache it: one close
      approach, `neo_reference_id` equal to the id. */
  function RawOf(neo: Neo): (raw: RawNeo)
    ensures |raw.approaches| == 1
  {
    RawNeo(neo.id, neo.name, neo.absoluteMagnitude, neo.diameterMin, neo.diameterMax, neo.hazardous,
           [Approach(neo.closeApproachDate, neo.missDistanceKm, neo.kmPerHour)])
  }

  /** A NEO cached by `getNEOs` reads back as itself, except that a
      magnitude of 0 comes back absent. */
  lemma NeoRoundTrip(neo: Neo, now: int)
    ensures NeoModel.ReadBack(NeoModel.RowOf(RawOf(neo), neo.closeApproachDate, now)) ==
            neo.(absoluteMagnitude := NeoModel.MagnitudeOrNull(neo.absoluteMagnitude))
    ensures neo.absoluteMagnitude != Some(0.0) ==>
            NeoModel.ReadBack(NeoModel.RowOf(RawOf(neo), neo.closeApproachDate, now)) == neo
  {
  }

  /** The APOD table after caching each fetched APOD in turn. */
  function CacheApods(rows: map<string, ApodModel.ApodRow>, apods: seq<Apod>, now: int): (r: map<string, ApodModel.ApodRow>)
    ensures ApodModel.Keyed(rows) ==> ApodModel.Keyed(r)
  {
    if apods == [] then rows
    else ApodModel.Upsert(CacheApods(rows, apods[..|apods| - 1], now), apods[|apods| - 1], now)
  }

  /** After caching, the table holds a row for every date it held or was
      fetched, and no other. */
  lemma {:induction false} CacheApodsKeys(rows: map<string, ApodModel.ApodRow>, apods: seq<Apod>, now: int)
    ensures forall d :: d in CacheApods(rows, apods, now) <==> d in rows || exists i :: 0 <= i < |apods| && apods[i].date == d
  {
    if apods != [] {
      var front := apods[..|apods| - 1];
      CacheApodsKeys(rows, front, now);
      forall d ensures d in CacheApods(rows, apods, now) <==> d in rows || exists i :: 0 <= i < |apods| && apods[i].date == d {
        if exists i :: 0 <= i < |front| && front[i].date == d {
          var i :| 0 <= i < |front| && front[i].date == d;
          assert apods[i] == front[i];
        }
        if exists i :: 0 <= i < |apods| && apods[i].date == d {
          var i :| 0 <= i < |apods| && apods[i].date == d;
          if i < |front| {
            assert front[i] == apods[i];
          }
        }
      }
    }
  }

  /** Each fetched APOD not followed by another of its date is the row of
      that date afterwards: the last write wins. */
  lemma {:induction false} CacheApodsLastWins(rows: map<string, ApodModel.ApodRow>, apods: seq<Apod>, now: int, i: int)
    requires 0 <= i < |apods| && forall j :: i < j < |apods| ==> apods[j].date != apods[i].date
    ensures apods[i].date in CacheApods(rows, apods, now)
    ensures CacheApods(rows, apods, now)[apods[i].date] == ApodModel.RowOf(apods[i], now)
  {
    if i < |apods| - 1 {
      var front := apods[..|apods| - 1];
      CacheApodsLastWins(rows, front, now, i);
    }
  }

  /** A cached date that was not fetched keeps its row. */
  lemma {:induction false} CacheApodsKeepsOthers(rows: map<string, ApodModel.ApodRow>, apods: seq<Apod>, now: int, d: string)
    requires d in rows && forall i :: 0 <= i < |apods| ==> apods[i].date != d
    ensures d in CacheApods(rows, apods, now) && CacheApods(rows, apods, now)[d] == rows[d]
  {
    if apods != [] {
      CacheApodsKeepsOthers(rows, apods[..|apods| - 1], now, d);
    }
  }

  /** The NEO table after caching each fetched NEO in turn. */
  function CacheNeos(rows: map<string, NeoModel.NeoRow>, neos: seq<Neo>, now: int): (r: map<string, NeoModel.NeoRow>)
    ensures NeoModel.Keyed(rows) ==> NeoModel.Keyed(r)
  {
    if neos == [] then rows
    else
      var last := neos[|neos| - 1];
      NeoModel.Upsert(CacheNeos(rows, neos[..|neos| - 1], now), RawOf(last), last.closeApproachDate, now)
  }

  /** After caching, the table holds a row for every id it held or was
      fetched, and no other. */
  lemma {:induction false} CacheNeosKeys(rows: map<string, NeoModel.NeoRow>, neos: seq<Neo>, now: int)
    ensures forall id :: id in CacheNeos(rows, neos, now) <==> id in rows || exists i :: 0 <= i < |neos| && neos[i].id == id
  {
    if neos != [] {
      var front := neos[..|neos| - 1];
      CacheNeosKeys(rows, front, now);
      forall id ensures id in CacheNeos(rows, neos, now) <==> id in rows || exists i :: 0 <= i < |neos| && neos[i].id == id {
        if exists i :: 0 <= i < |front| && front[i].id == id {
          var i :| 0 <= i < |front| && front[i].id == id;
          assert neos[i] == front[i];
        }
        if exists i :: 0 <= i < |neos| && neos[i].id == id {
          var i :| 0 <= i < |neos| && neos[i].id == id;
          if i < |front| {
            assert front[i] == neos[i];
          }
        }
      }
    }
  }

  /** Each fetched NEO not followed by another with its id reads back as
      itself afterwards, up to a magnitude of 0. */
  lemma {:induction false} CacheNeosLastWins(rows: map<string, NeoModel.NeoRow>, neos: seq<Neo>, now: int, i: int)
    requires 0 <= i < |neos| && forall j :: i < j < |neos| ==> neos[j].id != neos[i].id
    ensures neos[i].id in CacheNeos(rows, neos, now)
    ensures NeoModel.ReadBack(CacheNeos(rows, neos, now)[neos[i].id]) ==
      neos[i].(absoluteMagnitude := NeoModel.MagnitudeOrNull(neos[i].absoluteMagnitude))
  {
    if i < |neos| - 1 {
      CacheNeosLastWins(rows, neos[..|neos| - 1], now, i);
    } else {
      NeoRoundTrip(neos[i], now);
    }
  }

  // ---------------------------------------------------------------------
  // The cache-or-fetch decisions

  /** No arguments at all stand for the range today..today. */
  function EffectiveArgs(startDate: Option<string>, endDate: Option<string>, count: Option<int>, today: string)
    : (args: (Option<string>, Option<string>, Option<int>))
    ensures !Truthy(startDate) && !Truthy(endDate) && !CountGiven(count) ==> args == (Some(today), Some(today), None)
    ensures Truthy(startDate) || Truthy(endDate) || CountGiven(count) ==> args == (startDate, endDate, count)
  {
    if !Truthy(startDate) && !Truthy(endDate) && !CountGiven(count) then (Some(today), Some(today), None)
    else (startDate, endDate, count)
  }

  /** When `getAPODs` answers from the cache: a start/end query without a
      count, at least one cached row in the range, and a fresh row for
      every date of the range. */
  predicate ServesApodsFromCache(rows: map<string, ApodModel.ApodRow>, startDate: Option<string>, endDate: Option<string>,
                                 count: Option<int>, now: int, env: Option<string>, readFails: bool)
  {
    && Truthy(startDate) && Truthy(endDate) && !CountGiven(count) && !readFails
    && (exists d :: d in rows && ApodModel.InBounds(d, startDate, endDate))
    && (forall d :: d in DateRange(startDate.value, endDate.value) ==>
          d in rows && ApodModel.InBounds(d, startDate, endDate) && ApodModel.IsCacheFresh(rows, d, now, env, false))
  }

  /** The module-level `apodModel` and `neoModel`. */
  class Resolvers {
    const apodModel: ApodModel.ApodTable
    const neoModel: NeoModel.NeoTable

    ghost predicate Valid()
      reads this, apodModel, neoModel
    {
      ApodModel.Keyed(apodModel.rows) && NeoModel.Keyed(neoModel.rows)
    }

    constructor ()
      ensures Valid() && apodModel.rows == map[] && neoModel.rows == map[]
      ensures fresh(apodModel) && fresh(neoModel)
    {
      apodModel := new ApodModel.ApodTable();
      neoModel := new NeoModel.NeoTable();
    }

    /** The cache check of `getAPODs`: the cached answers for the range,
        when they cover every date of it and every date is fresh. */
    method CachedAnswer(startDate: Option<string>, endDate: Option<string>, count: Option<int>,
                        now: int, env: Option<string>, readFails: bool)
      returns (served: Option<seq<Apod>>)
      requires Valid()
      ensures served.Some? <==> ServesApodsFromCache(apodModel.rows, startDate, endDate, count, now, env, readFails)
      ensures served.Some? ==> ApodModel.IsSelection(apodModel.rows, startDate, endDate, served.value)
    {
      if !Truthy(startDate) || !Truthy(endDate) || CountGiven(count) {
        return None;
      }
      var cachedData := apodModel.GetCachedApods(startDate, endDate, readFails);
      if readFails {
        return None;
      }
      ApodModel.SelectionNonEmpty(apodModel.rows, startDate, endDate, cachedData);
      var dates := GetDateRange(startDate.value, endDate.value);
      var allDatesCached := forall d | d in dates :: exists i | 0 <= i < |cachedData| :: cachedData[i].date == d;
      if !allDatesCached || |cachedData| == 0 {
        return None;
      }
      var freshDataChecks := forall d | d in dates :: ApodModel.IsCacheFresh(apodModel.rows, d, now, env, readFails);
      if !freshDataChecks {
        return None;
      }
      served := Some(cachedData);
    }

    /** `Promise.all(apods.map(apod => apodModel.cacheAPOD(apod)))`, the
        writes taken in order. */
    method CacheAllApods(apods: seq<Apod>, now: int)
      requires Valid()
      modifies apodModel
      ensures Valid() && apodModel.rows == CacheApods(old(apodModel.rows), apods, now)
    {
      var i := 0;
      while i < |apods|
        invariant 0 <= i <= |apods|
        invariant apodModel.rows == CacheApods(old(apodModel.rows), apods[..i], now)
        invariant Valid()
      {
        assert apods[..i + 1][..i] == apods[..i];
        apodModel.CacheApod(apods[i], now);
        i := i + 1;
      }
      assert apods[..i] == apods;
    }

    /** `getAPODs`. No arguments mean today..today. A start/end query
        without a count is answered from the cache when the cache covers
        every date of the range with fresh rows; otherwise NASA is asked,
        every APOD it returns is cached, and the answers are returned as
        they came. */
    method GetApods(startDate: Option<string>, endDate: Option<string>, count: Option<int>, today: string,
                    now: int, env: Option<string>, readFails: bool, apiKey: string,
                    request: ApodParams -> Option<ApodPayload>)
      returns (r: Result<seq<Apod>, string>)
      requires Valid()
      modifies apodModel
      ensures Valid()
      ensures var (s, e, c) := EffectiveArgs(startDate, endDate, count, today);
        && (ServesApodsFromCache(old(apodModel.rows), s, e, c, now, env, readFails) ==>
              r.Ok? && ApodModel.IsSelection(apodModel.rows, s, e, r.value) && apodModel.rows == old(apodModel.rows))
        && (!ServesApodsFromCache(old(apodModel.rows), s, e, c, now, env, readFails) ==>
              var response := request(ParamsFor(apiKey, s, e, c));
              && (response.None? ==> r == Err("Failed to fetch APOD data: " + ApodFetchFailed) && apodModel.rows == old(apodModel.rows))
              && (response.Some? ==> r == Ok(Images(AsList(response.value))) &&
                                     apodModel.rows == CacheApods(old(apodModel.rows), Images(AsList(response.value)), now)))
    {
      var (s, e, c) := EffectiveArgs(startDate, endDate, count, today);
      var served := CachedAnswer(s, e, c, now, env, readFails);
      if served.Some? {
        return Ok(served.value);
      }
      var apods := FetchApods(apiKey, s, e, c, request);
      if apods.Err? {
        return Err("Failed to fetch APOD data: " + apods.error);
      }
      CacheAllApods(apods.value, now);
      r := Ok(seq(|apods.value|, k requires 0 <= k < |apods.value| => TransformRaw(apods.value[k])));
      assert r.value == apods.value;
    }

    /** `getAPOD`. A malformed date is refused before anything else; a
        cached row that is fresh is served; otherwise NASA is asked, and an
        answer that is no image gives null and caches nothing. */
    method GetApod(date: string, now: int, env: Option<string>, readFails: bool, fetch: string -> Option<Apod>)
      returns (r: Result<Option<Apod>, string>)
      requires Valid()
      modifies apodModel
      ensures Valid()
      ensures !IsValidDate(date) ==>
        r == Err("Failed to fetch APOD for " + date + ": " + InvalidDateFormat) && apodModel.rows == old(apodModel.rows)
      ensures IsValidDate(date) && ApodModel.CachedApod(old(apodModel.rows), date, readFails).Some? &&
              ApodModel.IsCacheFresh(old(apodModel.rows), date, now, env, readFails) ==>
        r == Ok(ApodModel.CachedApod(old(apodModel.rows), date, readFails)) && apodModel.rows == old(apodModel.rows)
      ensures IsValidDate(date) && !(ApodModel.CachedApod(old(apodModel.rows), date, readFails).Some? &&
              ApodModel.IsCacheFresh(old(apodModel.rows), date, now, env, readFails)) ==>
        var apod := ApodForDate(fetch(date));
        && (apod.None? ==> r == Ok(None) && apodModel.rows == old(apodModel.rows))
        && (apod.Some? ==> r == Ok(apod) && apodModel.rows == ApodModel.Upsert(old(apodModel.rows), apod.value, now))
    {
      if !IsValidDate(date) {
        return Err("Failed to fetch APOD for " + date + ": " + InvalidDateFormat);
      }
      var cached := ApodModel.CachedApod(apodModel.rows, date, readFails);
      if cached.Some? && ApodModel.IsCacheFresh(apodModel.rows, date, now, env, readFails) {
        return Ok(cached);
      }
      var apod := ApodForDate(fetch(date));
      if apod.None? {
        return Ok(None);
      }
      apodModel.CacheApod(apod.value, now);
      r := Ok(Some(TransformRaw(apod.value)));
    }

    /** The cache check of `getNEOs`: the cached NEOs of the range when it
        is fresh and holds at least one. */
    method CachedNeos(startDate: string, endDate: string, now: int, env: Option<string>, readFails: bool)
      returns (served: Option<seq<Neo>>)
      requires Valid()
      ensures served.Some? <==> NeoModel.IsCacheFresh(neoModel.rows, startDate, endDate, now, env, readFails) &&
                                exists id :: id in neoModel.rows && NeoModel.InRange(neoModel.rows[id], startDate, endDate)
      ensures served.Some? ==> NeoModel.IsRangeSelection(neoModel.rows, startDate, endDate, served.value)
    {
      if !NeoModel.IsCacheFresh(neoModel.rows, startDate, endDate, now, env, readFails) {
        return None;
      }
      var cached := neoModel.GetCachedNeos(startDate, endDate, readFails);
      NeoModel.RangeSelectionNonEmpty(neoModel.rows, startDate, endDate, cached);
      if |cached| == 0 {
        return None;
      }
      served := Some(cached);
    }

    /** The caching of the fetched NEOs, each rebuilt into its raw form. */
    method CacheAllNeos(neos: seq<Neo>, now: int)
      requires Valid()
      modifies neoModel
      ensures Valid() && neoModel.rows == CacheNeos(old(neoModel.rows), neos, now)
    {
      var i := 0;
      while i < |neos|
        invariant 0 <= i <= |neos|
        invariant neoModel.rows == CacheNeos(old(neoModel.rows), neos[..i], now)
        invariant Valid()
      {
        assert neos[..i + 1][..i] == neos[..i];
        var neo := neos[i];
        var ok := neoModel.CacheNeo(RawOf(neo), neo.closeApproachDate, now);
        i := i + 1;
      }
      assert neos[..i] == neos;
    }

    /** `getNEOs`. Malformed dates and a start after the end are refused
        before the cache or NASA is consulted; a fresh range with cached
        rows is served; otherwise the feed is fetched, unless the range is
        longer than seven days, and every NEO of it cached. `requested`
        says whether NASA was asked. */
    method GetNeos(startDate: string, endDate: string, now: int, env: Option<string>, readFails: bool,
                   request: (string, string) -> NeoResponse)
      returns (r: Result<seq<Neo>, string>, requested: bool)
      requires Valid()
      modifies neoModel
      ensures Valid()
      ensures !IsValidDate(startDate) || !IsValidDate(endDate) ==>
        r == Err("Failed to fetch NEO data: " + InvalidDateFormat) && !requested && neoModel.rows == old(neoModel.rows)
      ensures IsValidDate(startDate) && IsValidDate(endDate) &&
              Ordinal(ParseDate(startDate).value) > Ordinal(ParseDate(endDate).value) ==>
        r == Err("Failed to fetch NEO data: " + StartAfterEnd) && !requested && neoModel.rows == old(neoModel.rows)
      ensures IsValidDate(startDate) && IsValidDate(endDate) &&
              Ordinal(ParseDate(startDate).value) <= Ordinal(ParseDate(endDate).value) ==>
        var hit := NeoModel.IsCacheFresh(old(neoModel.rows), startDate, endDate, now, env, readFails) &&
                   exists id :: id in old(neoModel.rows) && NeoModel.InRange(old(neoModel.rows)[id], startDate, endDate);
        var fetched := requested && request(startDate, endDate).Feed?;
        && (hit ==> !requested && r.Ok? && NeoModel.IsRangeSelection(neoModel.rows, startDate, endDate, r.value) &&
                    neoModel.rows == old(neoModel.rows))
        && (!hit ==> (requested <==> !RangeTooLong(startDate, endDate)))
        && (!hit && fetched ==> r == Ok(Flatten(request(startDate, endDate).nearEarthObjects)) &&
                                neoModel.rows == CacheNeos(old(neoModel.rows), r.value, now))
        && (!hit && !fetched ==> (neoModel.rows == old(neoModel.rows) &&
              r == Err("Failed to fetch NEO data: " +
                (if requested && request(startDate, endDate) == HttpStatus(BadRequest) then NeoRangeInvalid else NeoFetchFailed))))
    {
      if !IsValidDate(startDate) || !IsValidDate(endDate) {
        return Err("Failed to fetch NEO data: " + InvalidDateFormat), false;
      }
      var start := ParseDate(startDate).value;
      var end := ParseDate(endDate).value;
      if Ordinal(start) > Ordinal(end) {
        return Err("Failed to fetch NEO data: " + StartAfterEnd), false;
      }
      var served := CachedNeos(startDate, endDate, now, env, readFails);
      if served.Some? {
        return Ok(served.value), false;
      }
      var neos;
      neos, requested := FetchNeos(startDate, endDate, request);
      if neos.Err? {
        return Err("Failed to fetch NEO data: " + neos.error), requested;
      }
      CacheAllNeos(neos.value, now);
      r := Ok(neos.value);
    }
  }
}
