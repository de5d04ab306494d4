/** What the two SQLite cache tables of `nasa-graphql-api` share: the
    configured lifetime, the freshness test SQLite evaluates, NULL for
    falsy optional values, and BETWEEN on TEXT dates. `cached_at` and
    `datetime('now')` are UTC seconds, passed in as integers. */
module SqlCache {
  import opened Wrappers
  import opened Text

  const SecondsPerHour := 3600

  /** `parseInt(process.env.CACHE_DURATION_HOURS || '6')`; None is NaN. */
  function CacheHours(env: Option<string>): Option<int> {
    ParseInt(if Truthy(env) then env.value else "6")
  }

  /** Unset or empty, the lifetime is six hours; a value that is not a
      number gives NaN. */
  lemma CacheHoursDefault()
    ensures CacheHours(None) == Some(6) && CacheHours(Some("")) == Some(6)
    ensures CacheHours(Some("12")) == Some(12)
    ensures CacheHours(Some("six")) == None
  {
    ParseIntOfDecimal(6);
    ParseIntOfDecimal(12);
    assert DecimalString(6) == "6";
    assert DecimalString(12) == "12";
    assert TrimStart("six") == "six";
    assert LeadingDigits("six") == 0;
  }

  /** `datetime(cached_at, '+H hours') > datetime('now')`. With H NaN the
      left side is NULL, and the comparison never holds. */
  predicate FreshAt(cachedAt: int, now: int, hours: Option<int>) {
    hours.Some? && cachedAt + hours.value * SecondsPerHour > now
  }

  /** `value || null` on the way in, `value || undefined` on the way out:
      an absent or empty string is absent. */
  function OrNull(s: Option<string>): (r: Option<string>)
    ensures r.Some? <==> Truthy(s)
    ensures r.Some? ==> r == s
  {
    if Truthy(s) then s else None
  }

  /** `x BETWEEN lo AND hi` on TEXT values. */
  predicate Between(x: string, lo: string, hi: string) {
    LexLe(lo, x) && LexLe(x, hi)
  }
}
