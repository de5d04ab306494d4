/** `NASAService` of the SQLite-backed GraphQL API (`nasa-graphql-api`): the
    three requests it makes to api.nasa.gov and how it shapes their answers.
    Each request is a parameter, a function from the query it is sent with
    to what came back. */
module NasaService {
  import opened Wrappers
  import opened Text
  import opened Calendar

  /** An APOD as NASA sends it (`RawAPODResponse`) and as the API returns it
      (`APOD`): the two have the same fields. */
  datatype Apod = Apod(
    date: string,
    title: string,
    url: string,
    hdurl: Option<string>,
    explanation: string,
    mediaType: string,
    serviceVersion: Option<string>,
    copyright: Option<string>)

  /** One entry of `close_approach_data`. Distances and speeds arrive as
      numeric strings; their `parseFloat` values stand for them here. */
  datatype Approach = Approach(date: string, missDistanceKm: real, kmPerHour: real)

  /** `RawNEOObject`, with the estimated diameter in kilometres. */
  datatype RawNeo = RawNeo(
    id: string,
    name: string,
    absoluteMagnitude: Option<real>,
    diameterMin: real,
    diameterMax: real,
    hazardous: bool,
    approaches: seq<Approach>)

  /** `NEO`: one object at one close approach. */
  datatype Neo = Neo(
    id: string,
    name: string,
    absoluteMagnitude: Option<real>,
    diameterMin: real,
    diameterMax: real,
    hazardous: bool,
    closeApproachDate: string,
    missDistanceKm: real,
    kmPerHour: real)

  const DemoKey := "DEMO_KEY"

  /** `process.env.NASA_API_KEY || 'DEMO_KEY'`. */
  function ApiKey(env: Option<string>): string {
    if Truthy(env) then env.value else DemoKey
  }

  // ---------------------------------------------------------------------
  // fetchAPODs

  /** The `params` object of the APOD request; absent fields are not sent. */
  datatype ApodParams = ApodParams(apiKey: string, count: Option<int>, startDate: Option<string>, endDate: Option<string>)

  /** `if (count)`: a count of 0 is no count. */
  predicate CountGiven(count: Option<int>) {
    count.Some? && count.value != 0
  }

  /** What the request is sent with: a count and no dates when a count is
      given, otherwise exactly the dates that are given. */
  function ParamsFor(apiKey: string, startDate: Option<string>, endDate: Option<string>, count: Option<int>): (p: ApodParams)
    ensures p.apiKey == apiKey
    ensures CountGiven(count) ==> p.count == count && p.startDate.None? && p.endDate.None?
    ensures !CountGiven(count) ==> p.count.None?
    ensures !CountGiven(count) ==> (p.startDate.Some? <==> Truthy(startDate)) && (p.startDate.Some? ==> p.startDate == startDate)
    ensures !CountGiven(count) ==> (p.endDate.Some? <==> Truthy(endDate)) && (p.endDate.Some? ==> p.endDate == endDate)
  {
    if CountGiven(count) then ApodParams(apiKey, count, None, None)
    else ApodParams(apiKey, None, if Truthy(startDate) then startDate else None, if Truthy(endDate) then endDate else None)
  }

  /** The field-by-field construction of `params`. */
  method BuildApodParams(apiKey: string, startDate: Option<string>, endDate: Option<string>, count: Option<int>)
    returns (params: ApodParams)
    ensures params == ParamsFor(apiKey, startDate, endDate, count)
  {
    params := ApodParams(apiKey, None, None, None);
    if CountGiven(count) {
      params := params.(count := count);
    } else {
      if Truthy(startDate) {
        params := params.(startDate := startDate);
      }
      if Truthy(endDate) {
        params := params.(endDate := endDate);
      }
    }
  }

  /** NASA answers one object for one date and an array for a range. */
  datatype ApodPayload = Single(item: Apod) | Many(items: seq<Apod>)

  /** `Array.isArray(data) ? data : [data]`. */
  function AsList(payload: ApodPayload): seq<Apod> {
    match payload
    case Single(item) => [item]
    case Many(items) => items
  }

  /** `data.filter(item => item.media_type === 'image')`. */
  function Images(items: seq<Apod>): (r: seq<Apod>)
    ensures forall x :: x in r <==> x in items && x.mediaType == "image"
    ensures |r| <= |items|
  {
    if items == [] then []
    else
      var front := items[..|items| - 1];
      var last := items[|items| - 1];
      assert items == front + [last];
      if last.mediaType == "image" then Images(front) + [last] else Images(front)
  }

  /** The filter keeps NASA's order: it distributes over concatenation. */
  lemma {:induction false} ImagesAppend(a: seq<Apod>, b: seq<Apod>)
    ensures Images(a + b) == Images(a) + Images(b)
    decreases |b|
  {
    if b == [] {
      assert a + b == a;
    } else {
      assert (a + b)[..|a + b| - 1] == a + b[..|b| - 1];
      ImagesAppend(a, b[..|b| - 1]);
    }
  }

  const ApodFetchFailed := "Failed to fetch APOD data from NASA API"

  /** `fetchAPODs`: the image items of NASA's answer, a single object
      answered for one date counting as a list of one; a failed request
      becomes the service's own error. */
  method FetchApods(apiKey: string, startDate: Option<string>, endDate: Option<string>, count: Option<int>,
                    request: ApodParams -> Option<ApodPayload>)
    returns (r: Result<seq<Apod>, string>)
    ensures var response := request(ParamsFor(apiKey, startDate, endDate, count));
      && (response.None? ==> r == Err(ApodFetchFailed))
      && (response.Some? ==> r.Ok? && r.value == Images(AsList(response.value)))
    ensures r.Ok? ==> forall x :: x in r.value ==> x.mediaType == "image"
  {
    var params := BuildApodParams(apiKey, startDate, endDate, count);
    var response := request(params);
    if response.None? {
      return Err(ApodFetchFailed);
    }
    r := Ok(Images(AsList(response.value)));
  }

  /** A single object is treated as a list of one: kept when it is an
      image, dropped otherwise. */
  lemma SingleObjectWrapped(item: Apod)
    ensures Images(AsList(Single(item))) == (if item.mediaType == "image" then [item] else [])
  {
    assert AsList(Single(item)) == [] + [item];
  }

  // ---------------------------------------------------------------------
  // fetchAPOD

  /** `fetchAPOD`: the answer when it is an image; null for anything else
      and for a failed request. */
  function ApodForDate(response: Option<Apod>): (r: Option<Apod>)
    ensures r.Some? <==> response.Some? && response.value.mediaType == "image"
    ensures r.Some? ==> r == response
  {
    if response.Some? && response.value.mediaType == "image" then response else None
  }

  // ---------------------------------------------------------------------
  // fetchNEOs

  function Abs(x: int): nat {
    if x < 0 then -x else x
  }

  /** `Math.ceil(Math.abs(end - start) / (1000 * 60 * 60 * 24))` on the two
      parsed dates; None stands for NaN, from an invalid date. */
  function DiffDays(startDate: string, endDate: string): (r: Option<nat>)
    ensures r.Some? <==> ParseDate(startDate).Some? && ParseDate(endDate).Some?
    ensures r.Some? ==> r.value == Abs(Ordinal(ParseDate(endDate).value) - Ordinal(ParseDate(startDate).value))
  {
    var s := ParseDate(startDate);
    var e := ParseDate(endDate);
    if s.None? || e.None? then None
    else
      var days := Abs(Ordinal(e.value) - Ordinal(s.value));
      var diffTime := days * MsPerDay;
      CeilOfWholeDays(days);
      Some((diffTime + MsPerDay - 1) / MsPerDay)
  }

  /** Both dates are UTC midnights, so rounding up adds nothing. */
  lemma CeilOfWholeDays(days: nat)
    ensures (days * MsPerDay + MsPerDay - 1) / MsPerDay == days
  {
    var v := days * MsPerDay + MsPerDay - 1;
    assert v == MsPerDay * days + (MsPerDay - 1);
  }

  /** The seven-day guard: it fires only for two valid dates more than seven
      days apart, in either order. */
  predicate RangeTooLong(startDate: string, endDate: string) {
    DiffDays(startDate, endDate).Some? && DiffDays(startDate, endDate).value > 7
  }

  /** The guard measures an absolute difference: two printed dates are
      refused exactly when they lie more than seven days apart, in either
      order, so a reversed range of at most seven days is let through. */
  lemma RangeGuardIsAbsolute(a: Date, b: Date)
    requires IsCalendarDate(a) && a.year <= 9999 && IsCalendarDate(b) && b.year <= 9999
    ensures RangeTooLong(FormatDate(a), FormatDate(b)) <==> Abs(Ordinal(b) - Ordinal(a)) > 7
    ensures Ordinal(b) < Ordinal(a) <= Ordinal(b) + 7 ==> !RangeTooLong(FormatDate(a), FormatDate(b))
  {
    ParseFormat(a);
    ParseFormat(b);
  }

  /** The NEO a raw object becomes, taken at its first close approach. */
  function NeoOf(raw: RawNeo): Neo
    requires |raw.approaches| > 0
  {
    var a := raw.approaches[0];
    Neo(raw.id, raw.name, raw.absoluteMagnitude, raw.diameterMin, raw.diameterMax, raw.hazardous,
        a.date, a.missDistanceKm, a.kmPerHour)
  }

  /** The NEOs of one day of the feed, skipping objects without approaches. */
  function DayNeos(raws: seq<RawNeo>): seq<Neo> {
    if raws == [] then []
    else
      var last := raws[|raws| - 1];
      DayNeos(raws[..|raws| - 1]) + (if |last.approaches| > 0 then [NeoOf(last)] else [])
  }

  /** `near_earth_objects`, flattened day by day in the order of its keys. */
  function Flatten(feed: seq<(string, seq<RawNeo>)>): seq<Neo> {
    if feed == [] then []
    else Flatten(feed[..|feed| - 1]) + DayNeos(feed[|feed| - 1].1)
  }

  function WithApproaches(raws: seq<RawNeo>): nat {
    if raws == [] then 0
    else WithApproaches(raws[..|raws| - 1]) + (if |raws[|raws| - 1].approaches| > 0 then 1 else 0)
  }

  /** One NEO per raw object that has approach data, and only those, each
      taken at its first approach. */
  lemma {:induction false} DayNeosContents(raws: seq<RawNeo>)
    ensures |DayNeos(raws)| == WithApproaches(raws)
    ensures forall n :: n in DayNeos(raws) <==> exists r :: r in raws && |r.approaches| > 0 && n == NeoOf(r)
  {
    if raws != [] {
      var front := raws[..|raws| - 1];
      var last := raws[|raws| - 1];
      DayNeosContents(front);
      assert raws == front + [last];
      forall n ensures n in DayNeos(raws) <==> exists r :: r in raws && |r.approaches| > 0 && n == NeoOf(r) {
        if exists r :: r in raws && |r.approaches| > 0 && n == NeoOf(r) {
          var r :| r in raws && |r.approaches| > 0 && n == NeoOf(r);
          if r != last {
            assert r in front;
          }
        }
      }
    }
  }

  /** The flattened feed holds exactly the NEOs of the objects with approach
      data, over all days. */
  lemma {:induction false} FlattenContents(feed: seq<(string, seq<RawNeo>)>)
    ensures forall n :: n in Flatten(feed) <==>
      exists i, r :: 0 <= i < |feed| && r in feed[i].1 && |r.approaches| > 0 && n == NeoOf(r)
  {
    if feed != [] {
      var front := feed[..|feed| - 1];
      var last := feed[|feed| - 1];
      FlattenContents(front);
      DayNeosContents(last.1);
      forall n ensures n in Flatten(feed) <==>
        exists i, r :: 0 <= i < |feed| && r in feed[i].1 && |r.approaches| > 0 && n == NeoOf(r)
      {
        if n in Flatten(front) {
          var i, r :| 0 <= i < |front| && r in front[i].1 && |r.approaches| > 0 && n == NeoOf(r);
          assert feed[i] == front[i];
        }
        if exists i, r :: 0 <= i < |feed| && r in feed[i].1 && |r.approaches| > 0 && n == NeoOf(r) {
          var i, r :| 0 <= i < |feed| && r in feed[i].1 && |r.approaches| > 0 && n == NeoOf(r);
          if i < |front| {
            assert front[i] == feed[i];
          }
        }
      }
    }
  }

  /** The nested `forEach` pushing into `neos`. */
  method FlattenFeed(feed: seq<(string, seq<RawNeo>)>) returns (neos: seq<Neo>)
    ensures neos == Flatten(feed)
  {
    neos := [];
    var d := 0;
    while d < |feed|
      invariant 0 <= d <= |feed|
      invariant neos == Flatten(feed[..d])
    {
      var day := feed[d].1;
      var j := 0;
      while j < |day|
        invariant 0 <= j <= |day|
        invariant neos == Flatten(feed[..d]) + DayNeos(day[..j])
      {
        assert day[..j + 1][..j] == day[..j];
        if |day[j].approaches| > 0 {
          neos := neos + [NeoOf(day[j])];
        }
        j := j + 1;
      }
      assert day[..j] == day;
      assert feed[..d + 1][..d] == feed[..d];
      d := d + 1;
    }
    assert feed[..d] == feed;
  }

  /** What the feed request came back with: the feed, a non-2xx status, or
      no response at all. */
  datatype NeoResponse = Feed(nearEarthObjects: seq<(string, seq<RawNeo>)>) | HttpStatus(status: int) | NoResponse

  const BadRequest := 400
  const NeoRangeInvalid := "Invalid date range for NEO query"
  const NeoFetchFailed := "Failed to fetch NEO data from NASA API"

  /** `fetchNEOs`: a range of more than seven days is refused before any
      request and, being caught by the same handler, surfaces as the generic
      failure; a 400 becomes the invalid-range error; otherwise the feed is
      flattened. `requested` says whether the request was made. */
  method FetchNeos(startDate: string, endDate: string, request: (string, string) -> NeoResponse)
    returns (r: Result<seq<Neo>, string>, requested: bool)
    ensures requested <==> !RangeTooLong(startDate, endDate)
    ensures RangeTooLong(startDate, endDate) ==> r == Err(NeoFetchFailed)
    ensures requested && request(startDate, endDate).Feed? ==>
      r == Ok(Flatten(request(startDate, endDate).nearEarthObjects))
    ensures requested && request(startDate, endDate) == HttpStatus(BadRequest) ==> r == Err(NeoRangeInvalid)
    ensures requested && !request(startDate, endDate).Feed? && request(startDate, endDate) != HttpStatus(BadRequest) ==>
      r == Err(NeoFetchFailed)
  {
    if RangeTooLong(startDate, endDate) {
      return Err(NeoFetchFailed), false;
    }
    requested := true;
    var response := request(startDate, endDate);
    if response.Feed? {
      var neos := FlattenFeed(response.nearEarthObjects);
      r := Ok(neos);
    } else if response == HttpStatus(BadRequest) {
      r := Err(NeoRangeInvalid);
    } else {
      r := Err(NeoFetchFailed);
    }
  }
}
