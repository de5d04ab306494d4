/** The pure part of `updateRoverData`: how one rover's photo manifest is
    filtered, deduplicated by sol and compared with what the document store
    already holds, and the bounded retry around the manifest request. */
module RoverSync {
  import opened Wrappers
  import opened Text

  /** One entry of `photo_manifest.photos`. */
  datatype ManifestEntry = ManifestEntry(sol: int, totalPhotos: int, cameras: seq<string>)

  /** A sol after deduplication: the value `solMap` holds for it. */
  datatype SolRecord = SolRecord(sol: int, totalPhotos: int, cameras: seq<string>)

  /** A photo as the resolvers reshape NASA's photo object: the camera and
      rover objects are reduced to their names. */
  datatype Photo = Photo(id: int, imgSrc: string, earthDate: string, sol: int, camera: string, rover: string)

  /** The `MarsRoverPhotoGroup` the GraphQL resolvers return. */
  datatype PhotoGroup = PhotoGroup(sol: int, photoCount: int, camera: Option<string>, photos: seq<Photo>)

  /** The sols of a list of groups, in order. */
  function GroupSols(groups: seq<PhotoGroup>): (r: seq<int>)
    ensures |r| == |groups| && forall i :: 0 <= i < |groups| ==> r[i] == groups[i].sol
  {
    seq(|groups|, i requires 0 <= i < |groups| => groups[i].sol)
  }

  /** `cameras?.[0] || null`: the first camera name, unless missing or "". */
  function FirstCamera(cameras: seq<string>): (c: Option<string>)
    ensures c.Some? <==> |cameras| > 0 && cameras[0] != ""
    ensures c.Some? ==> c.value == cameras[0]
  {
    if |cameras| > 0 && cameras[0] != "" then Some(cameras[0]) else None
  }

  // ---------------------------------------------------------------------
  // Step 3: keep the sols with photos

  /** `manifest.photos.filter(p => p.total_photos > 0)`, order kept. */
  function WithPhotos(manifest: seq<ManifestEntry>): (kept: seq<ManifestEntry>)
    ensures forall e :: e in kept <==> e in manifest && e.totalPhotos > 0
    ensures |kept| <= |manifest|
  {
    if manifest == [] then []
    else
      var front := manifest[..|manifest| - 1];
      var last := manifest[|manifest| - 1];
      assert manifest == front + [last];
      if last.totalPhotos > 0 then WithPhotos(front) + [last] else WithPhotos(front)
  }

  /** `WithPhotos` keeps the manifest's order: it distributes over `+`. */
  lemma {:induction false} WithPhotosAppend(a: seq<ManifestEntry>, b: seq<ManifestEntry>)
    ensures WithPhotos(a + b) == WithPhotos(a) + WithPhotos(b)
    decreases |b|
  {
    if b == [] {
      assert a + b == a;
    } else {
      var b' := b[..|b| - 1];
      assert (a + b)[..|a + b| - 1] == a + b';
      WithPhotosAppend(a, b');
    }
  }

  // ---------------------------------------------------------------------
  // Deduplication by sol: the specification

  function Sols(s: seq<ManifestEntry>): (r: seq<int>)
    ensures |r| == |s| && forall i :: 0 <= i < |s| ==> r[i] == s[i].sol
  {
    if s == [] then [] else Sols(s[..|s| - 1]) + [s[|s| - 1].sol]
  }

  /** The sols of `s`, each once, in order of first appearance: the order of
      the keys of `solMap`. */
  function SolOrder(s: seq<ManifestEntry>): seq<int> {
    Distinct(Sols(s))
  }

  /** Sum of `total_photos` over the entries of `s` for `sol`. */
  function TotalFor(s: seq<ManifestEntry>, sol: int): int {
    if s == [] then 0
    else TotalFor(s[..|s| - 1], sol) + (if s[|s| - 1].sol == sol then s[|s| - 1].totalPhotos else 0)
  }

  /** Union of the camera lists of the entries of `s` for `sol`. */
  function CamerasFor(s: seq<ManifestEntry>, sol: int): (r: set<string>)
    ensures forall c :: c in r <==> exists i :: 0 <= i < |s| && s[i].sol == sol && c in s[i].cameras
  {
    if s == [] then {}
    else
      var front := s[..|s| - 1];
      var last := s[|s| - 1];
      var r := CamerasFor(front, sol) + (if last.sol == sol then set c | c in last.cameras else {});
      assert forall c :: c in r <==> exists i :: 0 <= i < |s| && s[i].sol == sol && c in s[i].cameras by {
        forall c ensures c in r <==> exists i :: 0 <= i < |s| && s[i].sol == sol && c in s[i].cameras {
          if c in r && !(c in CamerasFor(front, sol)) {
            assert s[|s| - 1].sol == sol && c in s[|s| - 1].cameras;
          }
          if exists i :: 0 <= i < |s| && s[i].sol == sol && c in s[i].cameras {
            var i :| 0 <= i < |s| && s[i].sol == sol && c in s[i].cameras;
            if i < |s| - 1 {
              assert front[i] == s[i];
            }
          }
        }
      }
      r
  }

  /** What `solMap.get(sol)` holds once every entry of `s` has been
      processed: the first entry's count and cameras, then each later entry
      adds its count and merges its cameras through a Set. */
  function Merged(s: seq<ManifestEntry>, sol: int): SolRecord
    requires sol in Sols(s)
  {
    var front := s[..|s| - 1];
    var last := s[|s| - 1];
    assert Sols(s) == Sols(front) + [last.sol];
    if last.sol != sol then Merged(front, sol)
    else if sol !in Sols(front) then SolRecord(sol, last.totalPhotos, last.cameras)
    else
      var prev := Merged(front, sol);
      SolRecord(sol, prev.totalPhotos + last.totalPhotos, Distinct(prev.cameras + last.cameras))
  }

  /** The merged record for a sol carries that sol, the sum of its entries'
      photo counts and, as a set, the union of their cameras. */
  lemma {:induction false} MergedIsSumAndUnion(s: seq<ManifestEntry>, sol: int)
    requires sol in Sols(s)
    ensures Merged(s, sol).sol == sol
    ensures Merged(s, sol).totalPhotos == TotalFor(s, sol)
    ensures forall c :: c in Merged(s, sol).cameras <==> c in CamerasFor(s, sol)
  {
    var front := s[..|s| - 1];
    var last := s[|s| - 1];
    assert Sols(s) == Sols(front) + [last.sol];
    if sol in Sols(front) {
      MergedIsSumAndUnion(front, sol);
    } else {
      NotInSolsTotal(front, sol);
      NotInSolsCameras(front, sol);
    }
  }

  lemma {:induction false} NotInSolsTotal(s: seq<ManifestEntry>, sol: int)
    requires sol !in Sols(s)
    ensures TotalFor(s, sol) == 0
  {
    if s != [] {
      assert Sols(s) == Sols(s[..|s| - 1]) + [s[|s| - 1].sol];
      NotInSolsTotal(s[..|s| - 1], sol);
    }
  }

  lemma NotInSolsCameras(s: seq<ManifestEntry>, sol: int)
    requires sol !in Sols(s)
    ensures CamerasFor(s, sol) == {}
  {
    forall c ensures c !in CamerasFor(s, sol) {
      forall i | 0 <= i < |s| ensures s[i].sol != sol {
        assert Sols(s)[i] == s[i].sol;
      }
    }
  }

  /** `Array.from(solMap.values())`. */
  function DedupSpec(kept: seq<ManifestEntry>): (r: seq<SolRecord>)
    ensures |r| == |SolOrder(kept)|
  {
    var order := SolOrder(kept);
    seq(|order|, j requires 0 <= j < |order| => Merged(kept, order[j]))
  }

  function RecordSols(recs: seq<SolRecord>): (r: seq<int>)
    ensures |r| == |recs| && forall j :: 0 <= j < |recs| ==> r[j] == recs[j].sol
  {
    seq(|recs|, j requires 0 <= j < |recs| => recs[j].sol)
  }

  /** After deduplication every sol of the kept entries appears exactly once,
      in order of first appearance, with the summed count and the union of
      the cameras of all its entries. */
  lemma Deduplicated(kept: seq<ManifestEntry>)
    ensures RecordSols(DedupSpec(kept)) == SolOrder(kept)
    ensures NoDuplicates(RecordSols(DedupSpec(kept)))
    ensures forall e :: e in kept ==> e.sol in RecordSols(DedupSpec(kept))
    ensures forall sol :: sol in RecordSols(DedupSpec(kept)) ==> exists e :: e in kept && e.sol == sol
    ensures forall r :: r in DedupSpec(kept) ==> r.totalPhotos == TotalFor(kept, r.sol)
    ensures forall r, c :: r in DedupSpec(kept) ==> (c in r.cameras <==> c in CamerasFor(kept, r.sol))
  {
    var d := DedupSpec(kept);
    var order := SolOrder(kept);
    forall j | 0 <= j < |d| ensures d[j].sol == order[j] {
      MergedIsSumAndUnion(kept, order[j]);
    }
    assert RecordSols(d) == order;
    forall e | e in kept ensures e.sol in order {
      var i :| 0 <= i < |kept| && kept[i] == e;
      assert Sols(kept)[i] == e.sol;
    }
    forall sol | sol in order ensures exists e :: e in kept && e.sol == sol {
      var i :| 0 <= i < |kept| && Sols(kept)[i] == sol;
      assert kept[i] in kept;
    }
    forall r | r in d ensures r.totalPhotos == TotalFor(kept, r.sol) && forall c :: c in r.cameras <==> c in CamerasFor(kept, r.sol) {
      var j :| 0 <= j < |d| && d[j] == r;
      MergedIsSumAndUnion(kept, order[j]);
    }
  }

  // ---------------------------------------------------------------------
  // Deduplication by sol: the loop over `solMap`

  /** The `forEach` that fills `solMap`, then `Array.from(solMap.values())`. */
  method Deduplicate(kept: seq<ManifestEntry>) returns (deduped: seq<SolRecord>)
    ensures deduped == DedupSpec(kept)
  {
    var order: seq<int> := [];
    var solMap: map<int, SolRecord> := map[];
    var i := 0;
    while i < |kept|
      invariant 0 <= i <= |kept|
      invariant order == SolOrder(kept[..i])
      invariant forall sol :: sol in solMap <==> sol in order
      invariant forall sol :: sol in solMap ==> sol in Sols(kept[..i]) && solMap[sol] == Merged(kept[..i], sol)
    {
      var e := kept[i];
      var seen := kept[..i];
      var now := kept[..i + 1];
      assert now[..i] == seen && now[i] == e;
      assert Sols(now) == Sols(seen) + [e.sol];
      assert forall sol :: sol in Sols(now) <==> sol in Sols(seen) || sol == e.sol;
      if e.sol !in solMap {
        solMap := solMap[e.sol := SolRecord(e.sol, e.totalPhotos, e.cameras)];
        order := order + [e.sol];
      } else {
        var existing := solMap[e.sol];
        solMap := solMap[e.sol := SolRecord(e.sol, existing.totalPhotos + e.totalPhotos, Distinct(existing.cameras + e.cameras))];
      }
      i := i + 1;
    }
    assert kept[..i] == kept;
    forall j | 0 <= j < |order| ensures order[j] in solMap {
      assert order[j] in order;
    }
    deduped := seq(|order|, j requires 0 <= j < |order| => solMap[order[j]]);
  }

  // ---------------------------------------------------------------------
  // Steps 3 and 4: what to write and what to delete

  /** `deduplicatedSols.filter(p => latestStoredSol === null || p.sol > latestStoredSol)`. */
  function SolsToStore(deduped: seq<SolRecord>, latestStored: Option<int>): (r: seq<SolRecord>)
    ensures forall x :: x in r <==> x in deduped && (latestStored.None? || x.sol > latestStored.value)
    ensures latestStored.None? ==> r == deduped
  {
    if deduped == [] then []
    else
      var front := deduped[..|deduped| - 1];
      var last := deduped[|deduped| - 1];
      assert deduped == front + [last];
      if latestStored.None? || last.sol > latestStored.value then SolsToStore(front, latestStored) + [last]
      else SolsToStore(front, latestStored)
  }

  /** `storedSols.filter(s => !deduplicatedSols.some(p => p.sol === s.sol))`,
      over the sols of the stored documents. */
  function SolsToDelete(stored: seq<int>, deduped: seq<SolRecord>): (r: seq<int>)
    ensures forall s :: s in r <==> s in stored && s !in RecordSols(deduped)
  {
    if stored == [] then []
    else
      var front := stored[..|stored| - 1];
      var last := stored[|stored| - 1];
      assert stored == front + [last];
      if last !in RecordSols(deduped) then SolsToDelete(front, deduped) + [last]
      else SolsToDelete(front, deduped)
  }

  /** Nothing is both written and deleted, and every stored sol missing from
      the manifest is deleted. */
  lemma StoreAndDeleteDisjoint(stored: seq<int>, deduped: seq<SolRecord>, latestStored: Option<int>)
    ensures forall x :: x in SolsToStore(deduped, latestStored) ==> x.sol !in SolsToDelete(stored, deduped)
    ensures forall s :: s in stored && s !in RecordSols(deduped) ==> s in SolsToDelete(stored, deduped)
  {
    forall x | x in SolsToStore(deduped, latestStored) ensures x.sol in RecordSols(deduped) {
      var j :| 0 <= j < |deduped| && deduped[j] == x;
      assert RecordSols(deduped)[j] == x.sol;
    }
  }

  /** The high-water mark is never crossed downwards: with a stored sol `h`,
      no sol at or below `h` is written again, whatever the manifest says. */
  lemma HighWaterMark(deduped: seq<SolRecord>, h: int)
    ensures forall x :: x in SolsToStore(deduped, Some(h)) ==> x.sol > h
    ensures forall x :: x in deduped && x.sol > h ==> x in SolsToStore(deduped, Some(h))
  {
  }

  // ---------------------------------------------------------------------
  // Step 6: rover metadata

  function FlatCameras(recs: seq<SolRecord>): (r: seq<string>)
    ensures forall c :: c in r <==> exists j :: 0 <= j < |recs| && c in recs[j].cameras
  {
    if recs == [] then []
    else
      var front := recs[..|recs| - 1];
      var r := FlatCameras(front) + recs[|recs| - 1].cameras;
      assert forall j :: 0 <= j < |front| ==> front[j] == recs[j];
      r
  }

  /** `Array.from(new Set(deduplicatedSols.flatMap(p => p.cameras || [])))`. */
  function AllCameras(deduped: seq<SolRecord>): seq<string> {
    Distinct(FlatCameras(deduped))
  }

  /** The rover's camera list holds each camera of the kept manifest once. */
  lemma AllCamerasOfManifest(kept: seq<ManifestEntry>)
    ensures NoDuplicates(AllCameras(DedupSpec(kept)))
    ensures forall c :: c in AllCameras(DedupSpec(kept)) <==> exists e :: e in kept && c in e.cameras
  {
    var d := DedupSpec(kept);
    Deduplicated(kept);
    forall c ensures c in AllCameras(d) <==> exists e :: e in kept && c in e.cameras {
      if c in AllCameras(d) {
        var j :| 0 <= j < |d| && c in d[j].cameras;
        assert d[j] in d;
        var i :| 0 <= i < |kept| && kept[i].sol == d[j].sol && c in kept[i].cameras;
        assert kept[i] in kept;
      }
      if exists e :: e in kept && c in e.cameras {
        var e :| e in kept && c in e.cameras;
        var i :| 0 <= i < |kept| && kept[i] == e;
        assert e.sol in RecordSols(d);
        var j :| 0 <= j < |d| && RecordSols(d)[j] == e.sol;
        assert d[j] in d;
        assert c in CamerasFor(kept, d[j].sol);
      }
    }
  }

  // ---------------------------------------------------------------------
  // makeRequestWithRetry

  /** What one `axios.get` ends in: a response, an HTTP error status with its
      `retry-after` header, or an error without a response. */
  datatype HttpOutcome<T> = Success(body: T) | HttpError(status: int, retryAfter: Option<string>) | NetworkError

  datatype RetryError<T> = Rethrown(outcome: HttpOutcome<T>) | Exhausted(maxRetries: int)

  const TooManyRequests := 429

  /** `(parseInt(header) || 60) * 1000`: NaN and 0 fall back to a minute. */
  function RetryWaitMs(retryAfter: Option<string>): int {
    var seconds := if retryAfter.None? then None else ParseInt(retryAfter.value);
    (if seconds.None? || seconds.value == 0 then 60 else seconds.value) * 1000
  }

  /** A header holding a positive number of seconds is obeyed to the
      millisecond; a missing header or "0" means one minute. */
  lemma RetryWaitFromHeader(n: nat)
    ensures n > 0 ==> RetryWaitMs(Some(DecimalString(n))) == n * 1000
    ensures RetryWaitMs(Some(DecimalString(0))) == 60000
    ensures RetryWaitMs(None) == 60000
  {
    ParseIntOfDecimal(n);
    ParseIntOfDecimal(0);
  }

  predicate Retryable<T>(o: HttpOutcome<T>) {
    o.HttpError? && o.status == TooManyRequests
  }

  /** `makeRequestWithRetry(url, maxRetries)`. `upstream(k)` is what the k-th
      attempt (from 1) gets back; `waits` lists the pauses taken between
      attempts, in milliseconds. */
  method RequestWithRetry<T>(upstream: nat -> HttpOutcome<T>, maxRetries: nat)
    returns (r: Result<T, RetryError<T>>, attempts: nat, waits: seq<int>)
    ensures attempts <= maxRetries
    ensures maxRetries == 0 <==> r == Err(Exhausted(0))
    ensures maxRetries > 0 ==> attempts >= 1
    ensures |waits| == if attempts == 0 then 0 else attempts - 1
    ensures forall k :: 1 <= k < attempts ==>
      Retryable(upstream(k)) && waits[k - 1] == RetryWaitMs(upstream(k).retryAfter)
    ensures r.Ok? <==> attempts >= 1 && upstream(attempts).Success?
    ensures r.Ok? ==> r.value == upstream(attempts).body
    ensures r.Err? && maxRetries > 0 ==>
      r.error == Rethrown(upstream(attempts)) && (!Retryable(upstream(attempts)) || attempts == maxRetries)
  {
    waits := [];
    attempts := 0;
    var attempt := 1;
    while attempt <= maxRetries
      invariant 1 <= attempt <= if maxRetries == 0 then 1 else maxRetries
      invariant attempts == attempt - 1
      invariant |waits| == attempt - 1
      invariant forall k :: 1 <= k < attempt ==>
        Retryable(upstream(k)) && waits[k - 1] == RetryWaitMs(upstream(k).retryAfter)
    {
      attempts := attempt;
      var response := upstream(attempt);
      if response.Success? {
        return Ok(response.body), attempts, waits;
      }
      if Retryable(response) && attempt < maxRetries {
        waits := waits + [RetryWaitMs(response.retryAfter)];
        attempt := attempt + 1;
        continue;
      }
      return Err(Rethrown(response)), attempts, waits;
    }
    r := Err(Exhausted(maxRetries));
  }
}
