/** The Apollo server's own resolvers in `nasa-api-graphql/index.ts`: the
    APOD space-photo query behind a single-slot cache, and the Mars-rover
    queries used when Firestore is not configured, each behind a cache keyed
    by its arguments. Upstream requests are parameters: `None` stands for a
    request that failed. */
module GraphqlFallback {
  import opened Wrappers
  import opened Text
  import opened TtlCache
  import opened SpaceFilter
  import opened RoverSync

  const MissingKeyMessage := "NASA_API_KEY environment variable is required"
  const DefaultRover := "curiosity"

  /** The arguments `JSON.stringify({ rover, camera, solRange, summaryOnly })`
      serialises into the photo cache key. */
  datatype PhotosKey = PhotosKey(rover: string, camera: Option<string>, solRange: Option<seq<int>>, summaryOnly: Option<bool>)

  // ---------------------------------------------------------------------
  // The summary path: one group per manifest entry with photos

  /** `photos.find(p => p.sol === sol)`: the first entry for `sol`. */
  function FindFirst(manifest: seq<ManifestEntry>, sol: int): (e: ManifestEntry)
    requires sol in Sols(manifest)
    ensures exists i :: 0 <= i < |manifest| && manifest[i] == e &&
                        forall j :: 0 <= j < i ==> manifest[j].sol != sol
    ensures e.sol == sol
  {
    if manifest[0].sol == sol then manifest[0]
    else
      var rest := manifest[1..];
      assert sol in Sols(rest) by {
        var i :| 0 <= i < |manifest| && Sols(manifest)[i] == sol;
        assert i > 0 && rest[i - 1] == manifest[i];
        assert Sols(rest)[i - 1] == sol;
      }
      var e := FindFirst(rest, sol);
      assert exists i :: 0 <= i < |manifest| && manifest[i] == e &&
                         forall j :: 0 <= j < i ==> manifest[j].sol != sol by {
        var i :| 0 <= i < |rest| && rest[i] == e && forall j :: 0 <= j < i ==> rest[j].sol != sol;
        assert manifest[i + 1] == e;
        forall j | 0 <= j < i + 1 ensures manifest[j].sol != sol {
          if j > 0 {
            assert manifest[j] == rest[j - 1];
          }
        }
      }
      e
  }

  /** `summaryResults`: for each sol of an entry with photos, in manifest
      order, a group with the count and first camera of the FIRST manifest
      entry for that sol, and no photos. */
  function SummaryResults(manifest: seq<ManifestEntry>): (r: seq<PhotoGroup>)
    ensures |r| == |WithPhotos(manifest)|
  {
    var kept := WithPhotos(manifest);
    seq(|kept|, i requires 0 <= i < |kept| =>
      assert kept[i] in kept && kept[i] in manifest;
      assert kept[i].sol in Sols(manifest) by {
        var k :| 0 <= k < |manifest| && manifest[k] == kept[i];
        assert Sols(manifest)[k] == kept[i].sol;
      }
      var entry := FindFirst(manifest, kept[i].sol);
      PhotoGroup(kept[i].sol, entry.totalPhotos, FirstCamera(entry.cameras), []))
  }

  predicate UniqueSols(manifest: seq<ManifestEntry>) {
    forall i, j :: 0 <= i < j < |manifest| ==> manifest[i].sol != manifest[j].sol
  }

  /** The summary has one empty-photo group per entry with photos, in
      manifest order; when no sol is listed twice, each group carries its own
      entry's count and first camera. */
  lemma SummaryPerEntry(manifest: seq<ManifestEntry>)
    ensures forall i :: 0 <= i < |SummaryResults(manifest)| ==>
      SummaryResults(manifest)[i].sol == WithPhotos(manifest)[i].sol && SummaryResults(manifest)[i].photos == []
    ensures UniqueSols(manifest) ==> forall i :: 0 <= i < |SummaryResults(manifest)| ==>
      SummaryResults(manifest)[i] ==
        PhotoGroup(WithPhotos(manifest)[i].sol, WithPhotos(manifest)[i].totalPhotos, FirstCamera(WithPhotos(manifest)[i].cameras), [])
  {
    var kept := WithPhotos(manifest);
    if UniqueSols(manifest) {
      forall i | 0 <= i < |kept|
        ensures FindFirst(manifest, kept[i].sol) == kept[i]
      {
        assert kept[i] in kept;
        var k :| 0 <= k < |manifest| && manifest[k] == kept[i];
        assert Sols(manifest)[k] == kept[i].sol;
        var e := FindFirst(manifest, kept[i].sol);
        var j :| 0 <= j < |manifest| && manifest[j] == e && forall l :: 0 <= l < j ==> manifest[l].sol != kept[i].sol;
        assert j == k;
      }
    }
  }

  /** With a sol listed twice, the first entry wins even if it has no photos:
      the group for sol 7 reports 0 photos although the second entry has 5. */
  lemma SummaryFirstEntryWins()
    ensures SummaryResults([ManifestEntry(7, 0, []), ManifestEntry(7, 5, ["MAST"])]) ==
            [PhotoGroup(7, 0, None, [])]
  {
    var m := [ManifestEntry(7, 0, []), ManifestEntry(7, 5, ["MAST"])];
    assert m[..1] == [ManifestEntry(7, 0, [])];
    assert m[..1][..0] == [];
    assert WithPhotos(m) == [ManifestEntry(7, 5, ["MAST"])];
    assert Sols(m)[0] == 7;
  }

  // ---------------------------------------------------------------------
  // The solRange path: one group per requested sol

  /** The group for one requested sol: the photos fetched (none kept in
      summary mode, though still counted), or `{ sol, 0, null, [] }` when the
      request failed. */
  function RangeGroup(sol: int, fetched: Option<seq<Photo>>, summaryOnly: bool): (g: PhotoGroup)
    ensures g.sol == sol
    ensures fetched.None? ==> g.photoCount == 0 && g.camera.None? && g.photos == []
    ensures fetched.Some? ==> g.photoCount == |fetched.value| && g.photos == (if summaryOnly then [] else fetched.value)
  {
    if fetched.None? then PhotoGroup(sol, 0, None, [])
    else
      var photos := fetched.value;
      var camera := if |photos| > 0 && photos[0].camera != "" then Some(photos[0].camera) else None;
      PhotoGroup(sol, |photos|, camera, if summaryOnly then [] else photos)
  }

  // ---------------------------------------------------------------------
  // The manifest-derived lists

  function ManifestCameras(manifest: seq<ManifestEntry>): (r: seq<string>)
    ensures forall c :: c in r <==> exists i :: 0 <= i < |manifest| && c in manifest[i].cameras
  {
    if manifest == [] then []
    else
      var front := manifest[..|manifest| - 1];
      assert forall i :: 0 <= i < |front| ==> front[i] == manifest[i];
      ManifestCameras(front) + manifest[|manifest| - 1].cameras
  }

  /** `Array.from(new Set(photos.flatMap(p => p.cameras)))`: every camera of
      the manifest, each once, in order of first appearance. */
  function AvailableCamerasOf(manifest: seq<ManifestEntry>): (r: seq<string>)
    ensures NoDuplicates(r)
    ensures forall c :: c in r <==> exists e :: e in manifest && c in e.cameras
  {
    var r := Distinct(ManifestCameras(manifest));
    assert forall c :: c in r <==> exists e :: e in manifest && c in e.cameras by {
      forall c ensures c in r <==> exists e :: e in manifest && c in e.cameras {
        if exists e :: e in manifest && c in e.cameras {
          var e :| e in manifest && c in e.cameras;
          var i :| 0 <= i < |manifest| && manifest[i] == e;
        }
      }
    }
    r
  }

  /** The module state of the GraphQL server: its four caches. */
  class Server {
    var apodCache: Slot<seq<ApodItem>>
    var photosCache: map<PhotosKey, Slot<seq<PhotoGroup>>>
    var solsCache: map<string, Slot<seq<int>>>
    var camerasCache: map<string, Slot<seq<string>>>

    constructor ()
      ensures apodCache == Slot(None, 0)
      ensures photosCache == map[] && solsCache == map[] && camerasCache == map[]
    {
      apodCache := Slot(None, 0);
      photosCache := map[];
      solsCache := map[];
      camerasCache := map[];
    }

    /** `apodImagesResolver` at time `now`: the key is checked before the
        cache, so without a key the query fails even when the cache is fresh;
        a fresh cache is served; otherwise the month from NASA is filtered,
        cached and returned, and a failed request fails the query. */
    method ApodImages(now: int, apiKey: Option<string>, upstream: Option<seq<ApodItem>>)
      returns (r: Result<seq<ApodItem>, string>)
      modifies this
      ensures photosCache == old(photosCache) && solsCache == old(solsCache) && camerasCache == old(camerasCache)
      ensures !Truthy(apiKey) ==> r == Err(MissingKeyMessage) && apodCache == old(apodCache)
      ensures Truthy(apiKey) && Fresh(old(apodCache), now) ==>
        r == Ok(old(apodCache).data.value) && apodCache == old(apodCache)
      ensures Truthy(apiKey) && !Fresh(old(apodCache), now) && upstream.None? ==>
        r.Err? && apodCache == old(apodCache)
      ensures Truthy(apiKey) && !Fresh(old(apodCache), now) && upstream.Some? ==>
        r == Ok(SpacePhotos(upstream.value)) && apodCache == Refill(SpacePhotos(upstream.value), now)
    {
      if !Truthy(apiKey) {
        return Err(MissingKeyMessage);
      }
      var cached := Serve(apodCache, now);
      if cached.Some? {
        return Ok(cached.value);
      }
      if upstream.None? {
        return Err("request failed");
      }
      var spacePhotos := SpacePhotos(upstream.value);
      apodCache := Refill(spacePhotos, now);
      r := Ok(spacePhotos);
    }

    /** The loop over `solRange`, one request per sol. */
    method FetchRange(solRange: seq<int>, camera: Option<string>, summaryOnly: bool,
                      fetch: (int, Option<string>) -> Option<seq<Photo>>)
      returns (results: seq<PhotoGroup>)
      ensures |results| == |solRange|
      ensures forall i :: 0 <= i < |solRange| ==>
        results[i] == RangeGroup(solRange[i], fetch(solRange[i], if Truthy(camera) then camera else None), summaryOnly)
    {
      results := [];
      var i := 0;
      while i < |solRange|
        invariant 0 <= i <= |solRange|
        invariant |results| == i
        invariant forall k :: 0 <= k < i ==>
          results[k] == RangeGroup(solRange[k], fetch(solRange[k], if Truthy(camera) then camera else None), summaryOnly)
      {
        var sol := solRange[i];
        var fetched := fetch(sol, if Truthy(camera) then camera else None);
        results := results + [RangeGroup(sol, fetched, summaryOnly)];
        i := i + 1;
      }
    }

    /** `fallbackMarsRoverPhotosResolver` at time `now`. Any failure, a
        missing key included, is caught and answered with an empty list. */
    method MarsRoverPhotos(now: int, rover: Option<string>, camera: Option<string>, solRange: Option<seq<int>>,
                           summaryOnly: Option<bool>, apiKey: Option<string>,
                           manifest: Option<seq<ManifestEntry>>,
                           fetch: (int, Option<string>) -> Option<seq<Photo>>)
      returns (r: seq<PhotoGroup>)
      modifies this
      ensures apodCache == old(apodCache) && solsCache == old(solsCache) && camerasCache == old(camerasCache)
      ensures var key := PhotosKey(rover.GetOr(DefaultRover), camera, solRange, summaryOnly);
        && (!Truthy(apiKey) ==> r == [] && photosCache == old(photosCache))
        && (Truthy(apiKey) && ServeKey(old(photosCache), key, now).Some? ==>
              r == ServeKey(old(photosCache), key, now).value && photosCache == old(photosCache))
        && (Truthy(apiKey) && ServeKey(old(photosCache), key, now).None? && summaryOnly == Some(true) && solRange.None? ==>
              if manifest.None? then r == [] && photosCache == old(photosCache)
              else r == SummaryResults(manifest.value) && photosCache == old(photosCache)[key := Refill(r, now)])
        && (Truthy(apiKey) && ServeKey(old(photosCache), key, now).None? && !(summaryOnly == Some(true) && solRange.None?) ==>
              if solRange.Some? && solRange.value != [] then
                |r| == |solRange.value| && GroupSols(r) == solRange.value &&
                (forall i :: 0 <= i < |r| ==>
                  r[i] == RangeGroup(solRange.value[i], fetch(solRange.value[i], if Truthy(camera) then camera else None),
                                     summaryOnly == Some(true))) &&
                photosCache == old(photosCache)[key := Refill(r, now)]
              else r == [] && photosCache == old(photosCache))
    {
      var roverName := rover.GetOr(DefaultRover);
      if !Truthy(apiKey) {
        return [];
      }
      var key := PhotosKey(roverName, camera, solRange, summaryOnly);
      var cached := ServeKey(photosCache, key, now);
      if cached.Some? {
        return cached.value;
      }
      if summaryOnly == Some(true) && solRange.None? {
        if manifest.None? {
          return [];
        }
        var summaryResults := SummaryResults(manifest.value);
        photosCache := photosCache[key := Refill(summaryResults, now)];
        return summaryResults;
      }
      if solRange.Some? && solRange.value != [] {
        var results := FetchRange(solRange.value, camera, summaryOnly == Some(true), fetch);
        photosCache := photosCache[key := Refill(results, now)];
        return results;
      }
      r := [];
    }

    /** `fallbackAvailableSolsResolver`: served from the cache first, then
        the key is checked; the sols of the entries with photos, in manifest
        order; a failure is answered with an empty list. */
    method AvailableSols(now: int, rover: string, apiKey: Option<string>, manifest: Option<seq<ManifestEntry>>)
      returns (r: seq<int>)
      modifies this
      ensures apodCache == old(apodCache) && photosCache == old(photosCache) && camerasCache == old(camerasCache)
      ensures ServeKey(old(solsCache), rover, now).Some? ==>
        r == ServeKey(old(solsCache), rover, now).value && solsCache == old(solsCache)
      ensures ServeKey(old(solsCache), rover, now).None? && Truthy(apiKey) && manifest.Some? ==>
        r == Sols(WithPhotos(manifest.value)) && solsCache == old(solsCache)[rover := Refill(r, now)]
      ensures ServeKey(old(solsCache), rover, now).None? && !(Truthy(apiKey) && manifest.Some?) ==>
        r == [] && solsCache == old(solsCache)
    {
      var cached := ServeKey(solsCache, rover, now);
      if cached.Some? {
        return cached.value;
      }
      if !Truthy(apiKey) || manifest.None? {
        return [];
      }
      var sols := Sols(WithPhotos(manifest.value));
      solsCache := solsCache[rover := Refill(sols, now)];
      r := sols;
    }

    /** `fallbackAvailableCamerasResolver`: like `AvailableSols`, over the
        distinct cameras of the whole manifest. */
    method AvailableCameras(now: int, rover: string, apiKey: Option<string>, manifest: Option<seq<ManifestEntry>>)
      returns (r: seq<string>)
      modifies this
      ensures apodCache == old(apodCache) && photosCache == old(photosCache) && solsCache == old(solsCache)
      ensures ServeKey(old(camerasCache), rover, now).Some? ==>
        r == ServeKey(old(camerasCache), rover, now).value && camerasCache == old(camerasCache)
      ensures ServeKey(old(camerasCache), rover, now).None? && Truthy(apiKey) && manifest.Some? ==>
        r == AvailableCamerasOf(manifest.value) && camerasCache == old(camerasCache)[rover := Refill(r, now)]
      ensures ServeKey(old(camerasCache), rover, now).None? && !(Truthy(apiKey) && manifest.Some?) ==>
        r == [] && camerasCache == old(camerasCache)
    {
      var cached := ServeKey(camerasCache, rover, now);
      if cached.Some? {
        return cached.value;
      }
      if !Truthy(apiKey) || manifest.None? {
        return [];
      }
      var cameras := AvailableCamerasOf(manifest.value);
      camerasCache := camerasCache[rover := Refill(cameras, now)];
      r := cameras;
    }
  }

  /** The available sols are exactly the sols of the manifest entries with
      photos, in manifest order. */
  lemma AvailableSolsOfManifest(manifest: seq<ManifestEntry>)
    ensures |Sols(WithPhotos(manifest))| == |WithPhotos(manifest)|
    ensures forall s :: s in Sols(WithPhotos(manifest)) <==> exists e :: e in manifest && e.totalPhotos > 0 && e.sol == s
  {
    var kept := WithPhotos(manifest);
    forall s ensures s in Sols(kept) <==> exists e :: e in manifest && e.totalPhotos > 0 && e.sol == s {
      if exists e :: e in manifest && e.totalPhotos > 0 && e.sol == s {
        var e :| e in manifest && e.totalPhotos > 0 && e.sol == s;
        var i :| 0 <= i < |kept| && kept[i] == e;
        assert Sols(kept)[i] == s;
      }
      if s in Sols(kept) {
        var i :| 0 <= i < |kept| && Sols(kept)[i] == s;
        assert kept[i] in kept;
      }
    }
  }
}
