/** `APODModel`: the `apod_cache` table, whose `date` column is UNIQUE, so
    that `INSERT OR REPLACE` keeps one row per date. The table is a map from
    date to row; a failing query is the parameter `fails`. */
module ApodModel {
  import opened Wrappers
  import opened Text
  import opened NasaService
  import opened SqlCache

  /** A row of `apod_cache`; `cachedAt` is `cached_at` in seconds. */
  datatype ApodRow = ApodRow(
    date: string,
    title: string,
    url: string,
    hdurl: Option<string>,
    explanation: string,
    mediaType: string,
    serviceVersion: Option<string>,
    copyright: Option<string>,
    cachedAt: int)

  /** Every row sits under its own date. */
  predicate Keyed(rows: map<string, ApodRow>) {
    forall d :: d in rows ==> rows[d].date == d
  }

  /** The row `cacheAPOD` writes at time `now`. */
  function RowOf(apod: Apod, now: int): ApodRow {
    ApodRow(apod.date, apod.title, apod.url, OrNull(apod.hdurl), apod.explanation, apod.mediaType,
            OrNull(apod.serviceVersion), OrNull(apod.copyright), now)
  }

  /** `transformCachedAPOD`. */
  function ReadBack(row: ApodRow): Apod {
    Apod(row.date, row.title, row.url, OrNull(row.hdurl), row.explanation, row.mediaType,
         OrNull(row.serviceVersion), OrNull(row.copyright))
  }

  /** The table after `INSERT OR REPLACE` of one APOD at `now`. */
  function Upsert(rows: map<string, ApodRow>, apod: Apod, now: int): (r: map<string, ApodRow>)
    ensures Keyed(rows) ==> Keyed(r)
  {
    rows[apod.date := RowOf(apod, now)]
  }

  /** Caching an APOD leaves exactly one row for its date, holding the new
      values, and no other row changes. */
  lemma UpsertReplaces(rows: map<string, ApodRow>, apod: Apod, now: int)
    ensures apod.date in Upsert(rows, apod, now) && Upsert(rows, apod, now)[apod.date] == RowOf(apod, now)
    ensures |Upsert(rows, apod, now)| == |rows| + (if apod.date in rows then 0 else 1)
    ensures forall d :: d != apod.date ==> (d in Upsert(rows, apod, now) <==> d in rows)
    ensures forall d :: d != apod.date && d in rows ==> Upsert(rows, apod, now)[d] == rows[d]
  {
    var r := Upsert(rows, apod, now);
    if apod.date in rows {
      assert r.Keys == rows.Keys;
    } else {
      assert r.Keys == rows.Keys + {apod.date};
    }
  }

  /** An optional field is read back as it was cached, except that an
      empty string comes back absent. */
  lemma RoundTrip(apod: Apod, now: int)
    ensures ReadBack(RowOf(apod, now)) ==
      apod.(hdurl := OrNull(apod.hdurl), serviceVersion := OrNull(apod.serviceVersion), copyright := OrNull(apod.copyright))
    ensures Truthy(apod.hdurl) ==> ReadBack(RowOf(apod, now)).hdurl == apod.hdurl
    ensures apod.hdurl.None? ==> ReadBack(RowOf(apod, now)).hdurl.None?
  {
  }

  // ---------------------------------------------------------------------
  // getCachedAPODs

  const SelectAll := "SELECT * FROM apod_cache"
  const OrderByDateDesc := " ORDER BY date DESC"

  /** The query and its parameters, built by appending: a clause for the
      bounds that are given, with their values as parameters in the same
      order, and always the descending order at the end. */
  method BuildQuery(startDate: Option<string>, endDate: Option<string>) returns (query: string, params: seq<string>)
    ensures params == (if Truthy(startDate) then [startDate.value] else []) + (if Truthy(endDate) then [endDate.value] else [])
    ensures |query| >= |OrderByDateDesc| && query[|query| - |OrderByDateDesc|..] == OrderByDateDesc
    ensures Truthy(startDate) && Truthy(endDate) ==> query == SelectAll + " WHERE date BETWEEN ? AND ?" + OrderByDateDesc
    ensures Truthy(startDate) && !Truthy(endDate) ==> query == SelectAll + " WHERE date >= ?" + OrderByDateDesc
    ensures !Truthy(startDate) && Truthy(endDate) ==> query == SelectAll + " WHERE date <= ?" + OrderByDateDesc
    ensures !Truthy(startDate) && !Truthy(endDate) ==> query == SelectAll + OrderByDateDesc
  {
    query := SelectAll;
    params := [];
    if Truthy(startDate) && Truthy(endDate) {
      query := query + " WHERE date BETWEEN ? AND ?";
      params := params + [startDate.value, endDate.value];
    } else if Truthy(startDate) {
      query := query + " WHERE date >= ?";
      params := params + [startDate.value];
    } else if Truthy(endDate) {
      query := query + " WHERE date <= ?";
      params := params + [endDate.value];
    }
    query := query + OrderByDateDesc;
  }

  /** The WHERE clause of that query: a bound that is not given does not
      restrict. */
  predicate InBounds(date: string, startDate: Option<string>, endDate: Option<string>) {
    (Truthy(startDate) ==> LexLe(startDate.value, date)) && (Truthy(endDate) ==> LexLe(date, endDate.value))
  }

  /** `r` is what the query answers: every row within the bounds, read back,
      once each, by strictly decreasing date. */
  predicate IsSelection(rows: map<string, ApodRow>, startDate: Option<string>, endDate: Option<string>, r: seq<Apod>) {
    && (forall i :: 0 <= i < |r| ==> r[i].date in rows && InBounds(r[i].date, startDate, endDate) && r[i] == ReadBack(rows[r[i].date]))
    && (forall d :: d in rows && InBounds(d, startDate, endDate) ==> exists i :: 0 <= i < |r| && r[i].date == d)
    && (forall i, j :: 0 <= i < j < |r| ==> LexLe(r[j].date, r[i].date) && r[j].date != r[i].date)
  }

  /** The selection loop's progress: `r` holds, latest first, the rows
      within the bounds that are later than every row still `remaining`. */
  ghost predicate SelectedSoFar(rows: map<string, ApodRow>, startDate: Option<string>, endDate: Option<string>,
                                r: seq<Apod>, remaining: set<string>)
  {
    && (forall d :: d in remaining ==> d in rows && InBounds(d, startDate, endDate))
    && (forall i :: 0 <= i < |r| ==>
          r[i].date in rows && InBounds(r[i].date, startDate, endDate) && r[i] == ReadBack(rows[r[i].date]) && r[i].date !in remaining)
    && (forall i, d :: 0 <= i < |r| && d in remaining ==> LexLe(d, r[i].date))
    && (forall d :: d in rows && InBounds(d, startDate, endDate) ==> d in remaining || exists i :: 0 <= i < |r| && r[i].date == d)
    && (forall i, j :: 0 <= i < j < |r| ==> LexLe(r[j].date, r[i].date) && r[j].date != r[i].date)
  }

  /** Taking the latest remaining row keeps the loop's progress. */
  lemma SelectNext(rows: map<string, ApodRow>, startDate: Option<string>, endDate: Option<string>,
                   r: seq<Apod>, remaining: set<string>, m: string)
    requires Keyed(rows) && SelectedSoFar(rows, startDate, endDate, r, remaining)
    requires m in remaining && forall x :: x in remaining ==> LexLe(x, m)
    ensures SelectedSoFar(rows, startDate, endDate, r + [ReadBack(rows[m])], remaining - {m})
  {
    var r' := r + [ReadBack(rows[m])];
    var rem' := remaining - {m};
    assert r'[|r| ].date == m;
    forall i | 0 <= i < |r'|
      ensures r'[i].date in rows && InBounds(r'[i].date, startDate, endDate)
      ensures r'[i] == ReadBack(rows[r'[i].date]) && r'[i].date !in rem'
    {
      if i < |r| {
        assert r'[i] == r[i];
      }
    }
    forall i, d | 0 <= i < |r'| && d in rem'
      ensures LexLe(d, r'[i].date)
    {
      if i < |r| {
        assert r'[i] == r[i];
      }
    }
    forall i, j | 0 <= i < j < |r'|
      ensures LexLe(r'[j].date, r'[i].date) && r'[j].date != r'[i].date
    {
      assert r'[i] == r[i];
      if j < |r| {
        assert r'[j] == r[j];
      } else {
        assert r[i].date !in remaining;
      }
    }
    forall d | d in rows && InBounds(d, startDate, endDate) && d !in remaining - {m}
      ensures exists i :: 0 <= i < |r'| && r'[i].date == d
    {
      if d != m {
        var i :| 0 <= i < |r| && r[i].date == d;
        assert r'[i] == r[i];
      }
    }
  }

  /** The query answers something exactly when a row lies within the
      bounds. */
  lemma SelectionNonEmpty(rows: map<string, ApodRow>, startDate: Option<string>, endDate: Option<string>, r: seq<Apod>)
    requires IsSelection(rows, startDate, endDate, r)
    ensures |r| > 0 <==> exists d :: d in rows && InBounds(d, startDate, endDate)
  {
    if |r| > 0 {
      assert r[0].date in rows && InBounds(r[0].date, startDate, endDate);
    }
  }

  method Latest(s: set<string>) returns (m: string)
    requires |s| > 0
    ensures m in s && forall x :: x in s ==> LexLe(x, m)
  {
    ghost var w := Element(s);
    m :| m in s;
    LexLeTotal(m, m);
    var rest := s - {m};
    while |rest| > 0
      invariant rest <= s && m in s
      invariant forall x :: x in s && x !in rest ==> LexLe(x, m)
      decreases |rest|
    {
      ghost var w' := Element(rest);
      var k :| k in rest;
      LexLeTotal(k, m);
      if !LexLe(k, m) {
        LexLeTotal(k, k);
        forall x | x in s && x !in rest
          ensures LexLe(x, k)
        {
          LexLeTransitive(x, m, k);
        }
        m := k;
      }
      rest := rest - {k};
    }
  }

  /** `getCachedAPOD`: the row for the date, read back; null when there is
      none or the query fails. */
  function CachedApod(rows: map<string, ApodRow>, date: string, fails: bool): (r: Option<Apod>)
    ensures r.Some? <==> !fails && date in rows
    ensures r.Some? ==> r.value == ReadBack(rows[date])
  {
    if !fails && date in rows then Some(ReadBack(rows[date])) else None
  }

  /** `isCacheFresh(date)`: a row for the date whose lifetime has not run
      out; false when the query fails. */
  predicate IsCacheFresh(rows: map<string, ApodRow>, date: string, now: int, env: Option<string>, fails: bool) {
    !fails && date in rows && FreshAt(rows[date].cachedAt, now, CacheHours(env))
  }

  /** A date just cached is fresh for exactly the configured number of
      hours (six by default) and never with an unreadable setting. */
  lemma FreshAfterCaching(rows: map<string, ApodRow>, apod: Apod, now: int, later: int, env: Option<string>)
    ensures IsCacheFresh(Upsert(rows, apod, now), apod.date, later, env, false) <==>
            CacheHours(env).Some? && later < now + CacheHours(env).value * SecondsPerHour
    ensures !Truthy(env) ==>
            (IsCacheFresh(Upsert(rows, apod, now), apod.date, later, env, false) <==> later < now + 6 * SecondsPerHour)
  {
    CacheHoursDefault();
  }

  /** The SQLite table owned by the model. */
  class ApodTable {
    var rows: map<string, ApodRow>

    constructor ()
      ensures rows == map[]
    {
      rows := map[];
    }

    /** `cacheAPOD` at time `now`: INSERT OR REPLACE on the unique date. */
    method CacheApod(apod: Apod, now: int)
      requires Keyed(rows)
      modifies this
      ensures rows == Upsert(old(rows), apod, now) && Keyed(rows)
    {
      rows := rows[apod.date := RowOf(apod, now)];
    }

    /** `getCachedAPODs`: the rows within the bounds, latest first; an
        empty list when the query fails. */
    method GetCachedApods(startDate: Option<string>, endDate: Option<string>, fails: bool) returns (r: seq<Apod>)
      requires Keyed(rows)
      ensures fails ==> r == []
      ensures !fails ==> IsSelection(rows, startDate, endDate, r)
    {
      if fails {
        return [];
      }
      var remaining := set d | d in rows && InBounds(d, startDate, endDate);
      r := [];
      while |remaining| > 0
        invariant SelectedSoFar(rows, startDate, endDate, r, remaining)
        decreases |remaining|
      {
        var m := Latest(remaining);
        SelectNext(rows, startDate, endDate, r, remaining, m);
        r := r + [ReadBack(rows[m])];
        remaining := remaining - {m};
      }
    }
  }
}
