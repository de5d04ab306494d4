/** `NEOModel`: the `neo_cache` table, whose `neo_id` column is UNIQUE, so
    that `INSERT OR REPLACE` keeps one row per object. The table is a map
    from `neo_id` to row; a failing query is the parameter `fails`. */
module NeoModel {
  import opened Wrappers
  import opened Text
  import opened NasaService
  import opened SqlCache

  /** A row of `neo_cache`; `cachedAt` is `cached_at` in seconds. */
  datatype NeoRow = NeoRow(
    neoId: string,
    name: string,
    absoluteMagnitude: Option<real>,
    diameterMin: real,
    diameterMax: real,
    hazardous: bool,
    closeApproachDate: string,
    missDistanceKm: real,
    kmPerHour: real,
    cachedAt: int)

  /** Every row sits under its own `neo_id`. */
  predicate Keyed(rows: map<string, NeoRow>) {
    forall id :: id in rows ==> rows[id].neoId == id
  }

  /** `magnitude || null` and `magnitude || undefined`: a magnitude of 0 is
      falsy and is dropped like a missing one. */
  function MagnitudeOrNull(m: Option<real>): (r: Option<real>)
    ensures r.Some? <==> m.Some? && m.value != 0.0
    ensures r.Some? ==> r == m
  {
    if m.Some? && m.value != 0.0 then m else None
  }

  /** The row `cacheNEO` writes at time `now`: the approach date passed in,
      the distance and speed of the first approach. */
  function RowOf(neo: RawNeo, closeApproachDate: string, now: int): NeoRow
    requires |neo.approaches| > 0
  {
    var a := neo.approaches[0];
    NeoRow(neo.id, neo.name, MagnitudeOrNull(neo.absoluteMagnitude), neo.diameterMin, neo.diameterMax,
           neo.hazardous, closeApproachDate, a.missDistanceKm, a.kmPerHour, now)
  }

  /** `transformCachedNEO`: `neo_id` becomes `id`. */
  function ReadBack(row: NeoRow): Neo {
    Neo(row.neoId, row.name, MagnitudeOrNull(row.absoluteMagnitude), row.diameterMin, row.diameterMax,
        row.hazardous, row.closeApproachDate, row.missDistanceKm, row.kmPerHour)
  }

  function Upsert(rows: map<string, NeoRow>, neo: RawNeo, closeApproachDate: string, now: int): (r: map<string, NeoRow>)
    requires |neo.approaches| > 0
    ensures Keyed(rows) ==> Keyed(r)
  {
    rows[neo.id := RowOf(neo, closeApproachDate, now)]
  }

  /** Caching a NEO leaves exactly one row for its id, holding the new
      values, and no other row changes. */
  lemma UpsertReplaces(rows: map<string, NeoRow>, neo: RawNeo, closeApproachDate: string, now: int)
    requires |neo.approaches| > 0
    ensures neo.id in Upsert(rows, neo, closeApproachDate, now)
    ensures Upsert(rows, neo, closeApproachDate, now)[neo.id] == RowOf(neo, closeApproachDate, now)
    ensures |Upsert(rows, neo, closeApproachDate, now)| == |rows| + (if neo.id in rows then 0 else 1)
    ensures forall id :: id != neo.id ==> (id in Upsert(rows, neo, closeApproachDate, now) <==> id in rows)
    ensures forall id :: id != neo.id && id in rows ==> Upsert(rows, neo, closeApproachDate, now)[id] == rows[id]
  {
    var r := Upsert(rows, neo, closeApproachDate, now);
    if neo.id in rows {
      assert r.Keys == rows.Keys;
    } else {
      assert r.Keys == rows.Keys + {neo.id};
    }
  }

  /** Read back, a cached object is the NEO of its first approach at the
      date it was cached under, its magnitude dropped when 0. */
  lemma ReadBackOfRow(neo: RawNeo, closeApproachDate: string, now: int)
    requires |neo.approaches| > 0
    ensures ReadBack(RowOf(neo, closeApproachDate, now)) ==
      NeoOf(neo).(closeApproachDate := closeApproachDate, absoluteMagnitude := MagnitudeOrNull(neo.absoluteMagnitude))
  {
  }

  // ---------------------------------------------------------------------
  // getCachedNEOs and isCacheFresh

  /** `close_approach_date BETWEEN start AND end`, with both ends included. */
  predicate InRange(row: NeoRow, startDate: string, endDate: string) {
    Between(row.closeApproachDate, startDate, endDate)
  }

  /** `r` is what the range query answers: every row in the range, read
      back, once each, by non-decreasing approach date. */
  predicate IsRangeSelection(rows: map<string, NeoRow>, startDate: string, endDate: string, r: seq<Neo>) {
    && (forall i :: 0 <= i < |r| ==> r[i].id in rows && InRange(rows[r[i].id], startDate, endDate) && r[i] == ReadBack(rows[r[i].id]))
    && (forall id :: id in rows && InRange(rows[id], startDate, endDate) ==> exists i :: 0 <= i < |r| && r[i].id == id)
    && (forall i, j :: 0 <= i < j < |r| ==> r[i].id != r[j].id && LexLe(r[i].closeApproachDate, r[j].closeApproachDate))
  }

  ghost predicate SelectedSoFar(rows: map<string, NeoRow>, startDate: string, endDate: string, r: seq<Neo>, remaining: set<string>) {
    && (forall id :: id in remaining ==> id in rows && InRange(rows[id], startDate, endDate))
    && (forall i :: 0 <= i < |r| ==>
          r[i].id in rows && InRange(rows[r[i].id], startDate, endDate) && r[i] == ReadBack(rows[r[i].id]) && r[i].id !in remaining)
    && (forall i, id :: 0 <= i < |r| && id in remaining ==> LexLe(r[i].closeApproachDate, rows[id].closeApproachDate))
    && (forall id :: id in rows && InRange(rows[id], startDate, endDate) ==> id in remaining || exists i :: 0 <= i < |r| && r[i].id == id)
    && (forall i, j :: 0 <= i < j < |r| ==> r[i].id != r[j].id && LexLe(r[i].closeApproachDate, r[j].closeApproachDate))
  }

  /** Taking a remaining row with the earliest date keeps the loop's
      progress. */
  lemma SelectNext(rows: map<string, NeoRow>, startDate: string, endDate: string, r: seq<Neo>, remaining: set<string>, m: string)
    requires Keyed(rows) && SelectedSoFar(rows, startDate, endDate, r, remaining)
    requires m in remaining && forall x :: x in remaining ==> LexLe(rows[m].closeApproachDate, rows[x].closeApproachDate)
    ensures SelectedSoFar(rows, startDate, endDate, r + [ReadBack(rows[m])], remaining - {m})
  {
    var r' := r + [ReadBack(rows[m])];
    var rem' := remaining - {m};
    assert r'[|r|].id == m && r'[|r|].closeApproachDate == rows[m].closeApproachDate;
    forall i | 0 <= i < |r'|
      ensures r'[i].id in rows && InRange(rows[r'[i].id], startDate, endDate)
      ensures r'[i] == ReadBack(rows[r'[i].id]) && r'[i].id !in rem'
    {
      if i < |r| {
        assert r'[i] == r[i];
      }
    }
    forall i, id | 0 <= i < |r'| && id in rem'
      ensures LexLe(r'[i].closeApproachDate, rows[id].closeApproachDate)
    {
      if i < |r| {
        assert r'[i] == r[i];
      }
    }
    forall i, j | 0 <= i < j < |r'|
      ensures r'[i].id != r'[j].id && LexLe(r'[i].closeApproachDate, r'[j].closeApproachDate)
    {
      assert r'[i] == r[i];
      if j < |r| {
        assert r'[j] == r[j];
      } else {
        assert r[i].id !in remaining;
      }
    }
    forall id | id in rows && InRange(rows[id], startDate, endDate) && id !in remaining - {m}
      ensures exists i :: 0 <= i < |r'| && r'[i].id == id
    {
      if id != m {
        var i :| 0 <= i < |r| && r[i].id == id;
        assert r'[i] == r[i];
      }
    }
  }

  /** The range query answers something exactly when a row lies in the
      range. */
  lemma RangeSelectionNonEmpty(rows: map<string, NeoRow>, startDate: string, endDate: string, r: seq<Neo>)
    requires IsRangeSelection(rows, startDate, endDate, r)
    ensures |r| > 0 <==> exists id :: id in rows && InRange(rows[id], startDate, endDate)
  {
    if |r| > 0 {
      assert r[0].id in rows && InRange(rows[r[0].id], startDate, endDate);
    }
  }

  method Earliest(ids: set<string>, rows: map<string, NeoRow>) returns (m: string)
    requires |ids| > 0 && ids <= rows.Keys
    ensures m in ids && forall x :: x in ids ==> LexLe(rows[m].closeApproachDate, rows[x].closeApproachDate)
  {
    ghost var w := Element(ids);
    m :| m in ids;
    LexLeTotal(rows[m].closeApproachDate, rows[m].closeApproachDate);
    var rest := ids - {m};
    while |rest| > 0
      invariant rest <= ids && m in ids
      invariant forall x :: x in ids && x !in rest ==> LexLe(rows[m].closeApproachDate, rows[x].closeApproachDate)
      decreases |rest|
    {
      ghost var w' := Element(rest);
      var k :| k in rest;
      var dk, dm := rows[k].closeApproachDate, rows[m].closeApproachDate;
      LexLeTotal(dk, dm);
      if !LexLe(dm, dk) {
        LexLeTotal(dk, dk);
        forall x | x in ids && x !in rest
          ensures LexLe(dk, rows[x].closeApproachDate)
        {
          LexLeTransitive(dk, dm, rows[x].closeApproachDate);
        }
        m := k;
      }
      rest := rest - {k};
    }
  }

  /** `isCacheFresh(start, end)`: at least one row in the range is within
      its lifetime; false when the query fails. */
  predicate IsCacheFresh(rows: map<string, NeoRow>, startDate: string, endDate: string, now: int, env: Option<string>, fails: bool) {
    !fails && exists id :: id in rows && InRange(rows[id], startDate, endDate) && FreshAt(rows[id].cachedAt, now, CacheHours(env))
  }

  /** One fresh row marks the whole range fresh, whatever the other days of
      the range hold; and with no fresh row in the range, it is stale. */
  lemma OneFreshRowSuffices(rows: map<string, NeoRow>, id: string, startDate: string, endDate: string, now: int, env: Option<string>)
    ensures id in rows && InRange(rows[id], startDate, endDate) && FreshAt(rows[id].cachedAt, now, CacheHours(env)) ==>
      IsCacheFresh(rows, startDate, endDate, now, env, false)
    ensures (forall k :: k in rows && InRange(rows[k], startDate, endDate) ==> !FreshAt(rows[k].cachedAt, now, CacheHours(env))) ==>
      !IsCacheFresh(rows, startDate, endDate, now, env, false)
  {
  }

  /** The SQLite table owned by the model. */
  class NeoTable {
    var rows: map<string, NeoRow>

    constructor ()
      ensures rows == map[]
    {
      rows := map[];
    }

    /** `cacheNEO` at time `now`: INSERT OR REPLACE on the unique id. An
        object without approach data fails on `close_approach_data[0]` and
        writes nothing. */
    method CacheNeo(neo: RawNeo, closeApproachDate: string, now: int) returns (ok: bool)
      requires Keyed(rows)
      modifies this
      ensures ok <==> |neo.approaches| > 0
      ensures ok ==> rows == Upsert(old(rows), neo, closeApproachDate, now)
      ensures !ok ==> rows == old(rows)
      ensures Keyed(rows)
    {
      if |neo.approaches| == 0 {
        return false;
      }
      rows := rows[neo.id := RowOf(neo, closeApproachDate, now)];
      ok := true;
    }

    /** `getCachedNEOs`: the rows approaching within the range, earliest
        first; an empty list when the query fails. */
    method GetCachedNeos(startDate: string, endDate: string, fails: bool) returns (r: seq<Neo>)
      requires Keyed(rows)
      ensures fails ==> r == []
      ensures !fails ==> IsRangeSelection(rows, startDate, endDate, r)
    {
      if fails {
        return [];
      }
      var remaining := set id | id in rows && InRange(rows[id], startDate, endDate);
      r := [];
      while |remaining| > 0
        invariant SelectedSoFar(rows, startDate, endDate, r, remaining)
        decreases |remaining|
      {
        var m := Earliest(remaining, rows);
        SelectNext(rows, startDate, endDate, r, remaining, m);
        r := r + [ReadBack(rows[m])];
        remaining := remaining - {m};
      }
    }
  }
}
