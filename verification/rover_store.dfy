/** The Firestore side of the database-backed rover resolvers: one rover's
    document (`marsRovers/<rover>`) and its `sols` subcollection, the
    once-a-day `updateRoverData` that reconciles them with the manifest, and
    the read resolvers `availableSols`, `availableCameras` and
    `marsRoverPhotos`. Documents are keyed by their sol, which
    `updateRoverData` also writes as the `sol` field. */
module RoverStore {
  import opened Wrappers
  import opened Text
  import opened RoverSync

  /** A stored sol document: `photoCount` and `cameras`. */
  datatype SolDoc = SolDoc(photoCount: int, cameras: seq<string>)

  /** The rover document: metadata written by `storeRoverMetadata`, and the
      `lastChecked` day merged in by `setRoverLastChecked`. */
  datatype RoverDoc = RoverDoc(availableSols: seq<int>, availableCameras: seq<string>, lastChecked: Option<string>)

  /** `{ id, ...doc.data() }` as `getAllSolsForRover` lists it. */
  datatype StoredSol = StoredSol(id: int, doc: SolDoc)

  /** How a call of `updateRoverData` ends: skipped for today, rejected for
      want of a key, a manifest request that failed (logged), or an update
      from the manifest got on attempt `attempts`, with the high-water mark
      read before it. */
  datatype UpdateOutcome =
    | AlreadyCheckedToday
    | MissingApiKey
    | ManifestFailed(error: RetryError<seq<ManifestEntry>>)
    | Updated(attempts: nat, manifest: seq<ManifestEntry>, latestStored: Option<int>)

  const MissingKeyMessage := "NASA_API_KEY environment variable is required"

  predicate StrictlyAscending(xs: seq<int>) {
    forall i, j :: 0 <= i < j < |xs| ==> xs[i] < xs[j]
  }

  function Ids(docs: seq<StoredSol>): (r: seq<int>)
    ensures |r| == |docs| && forall i :: 0 <= i < |docs| ==> r[i] == docs[i].id
  {
    seq(|docs|, i requires 0 <= i < |docs| => docs[i].id)
  }

  /** The rover was already reconciled on day `today`. */
  predicate CheckedToday(roverDoc: Option<RoverDoc>, today: string) {
    roverDoc.Some? && roverDoc.value.lastChecked == Some(today)
  }

  function DocOf(r: SolRecord): SolDoc {
    SolDoc(r.totalPhotos, r.cameras)
  }

  /** The documents the store loop writes, one per record. */
  function DocsOf(recs: seq<SolRecord>): (m: map<int, SolDoc>)
    ensures forall k :: k in m <==> k in RecordSols(recs)
  {
    if recs == [] then map[]
    else
      var front := recs[..|recs| - 1];
      var last := recs[|recs| - 1];
      assert RecordSols(recs) == RecordSols(front) + [last.sol];
      DocsOf(front)[last.sol := DocOf(last)]
  }

  /** `latest` is what `getLatestStoredSol` reads from `stored`: the
      greatest sol, or null for an empty collection. */
  predicate IsLatest(stored: map<int, SolDoc>, latest: Option<int>) {
    (latest.None? <==> stored == map[]) &&
    (latest.Some? ==> latest.value in stored && forall k :: k in stored ==> k <= latest.value)
  }

  /** The `sols` collection after steps 4 and 5: the stored sols still in the
      deduplicated manifest, plus the records above the high-water mark. */
  function Reconciled(stored: map<int, SolDoc>, deduped: seq<SolRecord>, latest: Option<int>): map<int, SolDoc> {
    (map k | k in stored && k in RecordSols(deduped) :: stored[k]) + DocsOf(SolsToStore(deduped, latest))
  }

  /** After a reconciliation only sols of the deduplicated manifest are
      stored, every one of them above the high-water mark is stored, and a
      document that was already stored is never rewritten. */
  lemma ReconciledContents(stored: map<int, SolDoc>, deduped: seq<SolRecord>, latest: Option<int>)
    requires IsLatest(stored, latest)
    ensures forall k :: k in Reconciled(stored, deduped, latest) ==> k in RecordSols(deduped)
    ensures forall x :: x in deduped && (latest.None? || x.sol > latest.value) ==> x.sol in Reconciled(stored, deduped, latest)
    ensures forall k :: k in stored && k in RecordSols(deduped) ==> Reconciled(stored, deduped, latest)[k] == stored[k]
  {
    var toStore := SolsToStore(deduped, latest);
    forall k | k in RecordSols(toStore) ensures k in RecordSols(deduped) && k !in stored {
      var j :| 0 <= j < |toStore| && toStore[j].sol == k;
      assert toStore[j] in toStore;
      var i :| 0 <= i < |deduped| && deduped[i] == toStore[j];
      assert RecordSols(deduped)[i] == k;
    }
    forall x | x in deduped && (latest.None? || x.sol > latest.value) ensures x.sol in RecordSols(toStore) {
      var j :| 0 <= j < |toStore| && toStore[j] == x;
      assert RecordSols(toStore)[j] == x.sol;
    }
  }

  /** Running the update a second time with the same manifest changes nothing,
      provided the first run's high-water mark was absent or itself a sol of
      the manifest. */
  lemma ReconcileTwice(stored: map<int, SolDoc>, deduped: seq<SolRecord>, h1: Option<int>, h2: Option<int>)
    requires IsLatest(stored, h1)
    requires h1.None? || h1.value in RecordSols(deduped)
    requires IsLatest(Reconciled(stored, deduped, h1), h2)
    ensures Reconciled(Reconciled(stored, deduped, h1), deduped, h2) == Reconciled(stored, deduped, h1)
  {
    var once := Reconciled(stored, deduped, h1);
    ReconciledContents(stored, deduped, h1);
    forall x | x in deduped ensures h2.Some? && x.sol <= h2.value {
      if h1.None? || x.sol > h1.value {
        assert x.sol in once;
      } else {
        assert h1.value in once;
      }
    }
    NothingToStore(deduped, h2);
    RestrictToAll(once, RecordSols(deduped));
  }

  lemma {:induction false} NothingToStore(deduped: seq<SolRecord>, latest: Option<int>)
    requires forall x :: x in deduped ==> latest.Some? && x.sol <= latest.value
    ensures SolsToStore(deduped, latest) == []
  {
    if deduped != [] {
      var front := deduped[..|deduped| - 1];
      assert deduped[|deduped| - 1] in deduped;
      assert forall x :: x in front ==> x in deduped;
      NothingToStore(front, latest);
    }
  }

  lemma RestrictToAll(m: map<int, SolDoc>, keys: seq<int>)
    requires forall k :: k in m ==> k in keys
    ensures (map k | k in m && k in keys :: m[k]) == m
  {
    var r := map k | k in m && k in keys :: m[k];
    forall k | k in m ensures k in r {
      assert k in keys;
    }
    assert r.Keys == m.Keys;
  }

  /** The second run is not a no-op in general: with sol 10 stored and a
      manifest holding only sol 5, the first run deletes 10 and, the mark
      being 10, stores nothing; the second run finds no mark and stores 5. */
  lemma ReconcileTwiceCounterexample()
    ensures IsLatest(map[10 := SolDoc(4, ["MAST"])], Some(10))
    ensures Reconciled(map[10 := SolDoc(4, ["MAST"])], [SolRecord(5, 3, ["NAVCAM"])], Some(10)) == map[]
    ensures IsLatest(map[], None)
    ensures Reconciled(map[], [SolRecord(5, 3, ["NAVCAM"])], None) == map[5 := SolDoc(3, ["NAVCAM"])]
  {
    var deduped := [SolRecord(5, 3, ["NAVCAM"])];
    assert 10 in map[10 := SolDoc(4, ["MAST"])];
    assert RecordSols(deduped) == [5];
    NothingToStore(deduped, Some(10));
    var once := Reconciled(map[10 := SolDoc(4, ["MAST"])], deduped, Some(10));
    assert once.Keys == {};
    assert once == map[];
    var none: map<int, SolDoc> := map[];
    assert SolsToStore(deduped, None) == deduped;
    assert Reconciled(none, deduped, None).Keys == DocsOf(deduped).Keys;
    assert DocsOf(deduped) == map[5 := SolDoc(3, ["NAVCAM"])] by {
      assert deduped[..0] == [];
    }
  }

  /** One rover's documents. */
  class Rover {
    var roverDoc: Option<RoverDoc>
    var sols: map<int, SolDoc>

    constructor ()
      ensures roverDoc == None && sols == map[]
    {
      roverDoc := None;
      sols := map[];
    }

    /** `shouldUpdateRoverData`. */
    method ShouldUpdate(today: string) returns (b: bool)
      ensures b <==> !CheckedToday(roverDoc, today)
    {
      b := true;
      if roverDoc.Some? {
        var lastChecked := roverDoc.value.lastChecked;
        if lastChecked == Some(today) {
          b := false;
        }
      }
    }

    /** `getAllSolsForRover`: every stored sol, sorted by id. */
    method AllSols() returns (docs: seq<StoredSol>)
      ensures StrictlyAscending(Ids(docs))
      ensures forall k :: k in sols <==> k in Ids(docs)
      ensures forall d :: d in docs ==> d.id in sols && d.doc == sols[d.id]
    {
      var remaining := sols.Keys;
      docs := [];
      while |remaining| > 0
        invariant remaining <= sols.Keys
        invariant forall k :: k in sols ==> (k in remaining <==> k !in Ids(docs))
        invariant StrictlyAscending(Ids(docs))
        invariant forall i, k :: 0 <= i < |docs| && k in remaining ==> docs[i].id < k
        invariant forall d :: d in docs ==> d.id in sols && d.doc == sols[d.id]
        decreases |remaining|
      {
        var m := Smallest(remaining);
        assert Ids(docs + [StoredSol(m, sols[m])]) == Ids(docs) + [m];
        docs := docs + [StoredSol(m, sols[m])];
        remaining := remaining - {m};
      }
    }

    /** `getLatestStoredSol`: the greatest stored sol, or null. */
    method LatestStoredSol() returns (latest: Option<int>)
      ensures IsLatest(sols, latest)
    {
      var all := AllSols();
      if all == [] {
        latest := None;
        assert Ids(all) == [];
        assert forall k :: k !in sols.Keys;
      } else {
        var top := all[|all| - 1].id;
        latest := Some(top);
        assert Ids(all)[|all| - 1] == top;
        forall k | k in sols ensures k <= top {
          var i :| 0 <= i < |all| && Ids(all)[i] == k;
        }
      }
    }

    /** The `deleteDoc` loop over `solsToDelete`. */
    method DeleteSols(toDelete: seq<int>)
      modifies this
      ensures sols == map k | k in old(sols) && k !in toDelete :: old(sols)[k]
      ensures roverDoc == old(roverDoc)
    {
      var i := 0;
      while i < |toDelete|
        invariant 0 <= i <= |toDelete|
        invariant sols == map k | k in old(sols) && k !in toDelete[..i] :: old(sols)[k]
        invariant roverDoc == old(roverDoc)
      {
        assert toDelete[..i + 1] == toDelete[..i] + [toDelete[i]];
        sols := map k | k in sols && k != toDelete[i] :: sols[k];
        i := i + 1;
      }
      assert toDelete[..i] == toDelete;
    }

    /** The `setDoc` loop over `solsToStore`. */
    method StoreSols(toStore: seq<SolRecord>)
      modifies this
      ensures sols == old(sols) + DocsOf(toStore)
      ensures roverDoc == old(roverDoc)
    {
      var j := 0;
      while j < |toStore|
        invariant 0 <= j <= |toStore|
        invariant sols == old(sols) + DocsOf(toStore[..j])
        invariant roverDoc == old(roverDoc)
      {
        assert toStore[..j + 1][..j] == toStore[..j];
        MergeThenUpdate(old(sols), DocsOf(toStore[..j]), toStore[j].sol, DocOf(toStore[j]));
        sols := sols[toStore[j].sol := DocOf(toStore[j])];
        j := j + 1;
      }
      assert toStore[..j] == toStore;
    }

    /** Steps 3 to 5 of `updateRoverData` on the `sols` collection: delete
        the stored sols missing from `deduped`, then write those above the
        high-water mark `latest`. */
    method Reconcile(deduped: seq<SolRecord>, latest: Option<int>)
      modifies this
      ensures sols == Reconciled(old(sols), deduped, latest)
      ensures roverDoc == old(roverDoc)
    {
      var toStore := SolsToStore(deduped, latest);
      var stored := AllSols();
      var toDelete := SolsToDelete(Ids(stored), deduped);
      assert forall k :: k in sols ==> (k !in toDelete <==> k in RecordSols(deduped));
      DeleteSols(toDelete);
      assert sols == map k | k in old(sols) && k in RecordSols(deduped) :: old(sols)[k];
      StoreSols(toStore);
    }

    /** `updateRoverData`: at most once per day, fetch the manifest (with
        retries on 429), delete the stored sols no longer in it, store the
        sols above the high-water mark, and rewrite the rover document. A
        failed manifest request is logged and leaves everything as it was. */
    method UpdateRoverData(today: string, apiKey: Option<string>, upstream: nat -> HttpOutcome<seq<ManifestEntry>>)
      returns (outcome: UpdateOutcome)
      modifies this
      ensures outcome == AlreadyCheckedToday <==> CheckedToday(old(roverDoc), today)
      ensures outcome == MissingApiKey <==> !CheckedToday(old(roverDoc), today) && !Truthy(apiKey)
      ensures !outcome.Updated? ==> roverDoc == old(roverDoc) && sols == old(sols)
      ensures outcome.Updated? ==>
        1 <= outcome.attempts <= 3 && upstream(outcome.attempts) == Success(outcome.manifest) &&
        IsLatest(old(sols), outcome.latestStored)
      ensures outcome.Updated? ==>
        var deduped := DedupSpec(WithPhotos(outcome.manifest));
        sols == Reconciled(old(sols), deduped, outcome.latestStored) &&
        roverDoc == Some(RoverDoc(RecordSols(deduped), AllCameras(deduped), Some(today)))
      ensures outcome.Updated? ==> CheckedToday(roverDoc, today)
      ensures outcome.Updated? ==> forall j :: 1 <= j < outcome.attempts ==> Retryable(upstream(j))
      ensures !CheckedToday(old(roverDoc), today) && Truthy(apiKey) ==>
        (outcome.Updated? <==>
          exists k :: 1 <= k <= 3 && upstream(k).Success? && forall j :: 1 <= j < k ==> Retryable(upstream(j)))
      ensures outcome.ManifestFailed? ==>
        exists k :: 1 <= k <= 3 && outcome.error == Rethrown(upstream(k)) && forall j :: 1 <= j < k ==> Retryable(upstream(j))
    {
      var should := ShouldUpdate(today);
      if !should {
        return AlreadyCheckedToday;
      }
      if !Truthy(apiKey) {
        return MissingApiKey;
      }
      var response, attempts, _ := RequestWithRetry(upstream, 3);
      if response.Err? {
        return ManifestFailed(response.error);
      }
      var manifest := response.value;
      var latest := LatestStoredSol();
      var kept := WithPhotos(manifest);
      var deduped := Deduplicate(kept);
      Reconcile(deduped, latest);
      roverDoc := Some(RoverDoc(RecordSols(deduped), AllCameras(deduped), None));
      roverDoc := Some(roverDoc.value.(lastChecked := Some(today)));
      outcome := Updated(attempts, manifest, latest);
    }

    /** The `availableSols` resolver: the stored sols with photos, ascending. */
    method AvailableSols() returns (r: seq<int>)
      ensures StrictlyAscending(r)
      ensures forall s :: s in r <==> s in sols && sols[s].photoCount > 0
    {
      var all := AllSols();
      r := Ids(WithPhotoCount(all));
      forall s | s in sols && sols[s].photoCount > 0 ensures s in r {
        var i :| 0 <= i < |all| && Ids(all)[i] == s;
        assert all[i] in WithPhotoCount(all);
      }
    }

    /** The `availableCameras` resolver: the metadata's camera list, or []. */
    method AvailableCameras() returns (cameras: seq<string>)
      ensures roverDoc.None? ==> cameras == []
      ensures roverDoc.Some? ==> cameras == roverDoc.value.availableCameras
    {
      cameras := if roverDoc.Some? then roverDoc.value.availableCameras else [];
    }

    /** `marsRoverPhotos` with a non-empty `solRange`: for each requested sol
        in turn, a stored sol with photos (and the chosen camera, if any)
        gives one group whose count is the number of photos fetched. */
    method PhotosForRange(solRange: seq<int>, camera: Option<string>, summaryOnly: bool, apiKey: Option<string>,
                          fetch: (int, Option<string>) -> Option<seq<Photo>>)
      returns (r: Result<seq<PhotoGroup>, string>)
      ensures r == RangeGroups(sols, solRange, camera, summaryOnly, apiKey, fetch)
    {
      var results: seq<PhotoGroup> := [];
      var i := 0;
      while i < |solRange|
        invariant 0 <= i <= |solRange|
        invariant RangeGroups(sols, solRange[..i], camera, summaryOnly, apiKey, fetch) == Ok(results)
      {
        var sol := solRange[i];
        assert solRange[..i + 1][..i] == solRange[..i];
        if sol in sols && sols[sol].photoCount > 0 {
          var solData := sols[sol];
          if Truthy(camera) {
            if camera.value in solData.cameras {
              if !summaryOnly && !Truthy(apiKey) {
                RangeGroupsErrorStays(sols, solRange, i + 1, camera, summaryOnly, apiKey, fetch);
                return Err(MissingKeyMessage);
              }
              var photos := if summaryOnly then [] else fetch(sol, camera).GetOr([]);
              results := results + [PhotoGroup(sol, |photos|, camera, photos)];
            }
          } else {
            if !summaryOnly && !Truthy(apiKey) {
              RangeGroupsErrorStays(sols, solRange, i + 1, camera, summaryOnly, apiKey, fetch);
              return Err(MissingKeyMessage);
            }
            var photos := if summaryOnly then [] else fetch(sol, None).GetOr([]);
            results := results + [PhotoGroup(sol, |photos|, FirstCamera(solData.cameras), photos)];
          }
        }
        i := i + 1;
      }
      assert solRange[..i] == solRange;
      r := Ok(results);
    }

    /** `marsRoverPhotos`: the solRange path, or else one summary group per
        stored sol with photos, ascending by sol. */
    method MarsRoverPhotos(camera: Option<string>, solRange: Option<seq<int>>, summaryOnly: Option<bool>,
                           apiKey: Option<string>, fetch: (int, Option<string>) -> Option<seq<Photo>>)
      returns (r: Result<seq<PhotoGroup>, string>)
      ensures HasRange(solRange) ==>
        r == RangeGroups(sols, solRange.value, camera, summaryOnly == Some(true), apiKey, fetch)
      ensures !HasRange(solRange) ==> r.Ok? && StrictlyAscending(GroupSols(r.value))
      ensures !HasRange(solRange) ==>
        r.Ok? && (forall s :: s in GroupSols(r.value) <==> s in sols && sols[s].photoCount > 0)
      ensures !HasRange(solRange) ==>
        r.Ok? && (forall g :: g in r.value ==> g.sol in sols && g == SummaryGroup(StoredSol(g.sol, sols[g.sol])))
    {
      if HasRange(solRange) {
        r := PhotosForRange(solRange.value, camera, summaryOnly == Some(true), apiKey, fetch);
      } else {
        var all := AllSols();
        var withPhotos := WithPhotoCount(all);
        var groups := seq(|withPhotos|, i requires 0 <= i < |withPhotos| => SummaryGroup(withPhotos[i]));
        assert GroupSols(groups) == Ids(withPhotos);
        forall s | s in sols && sols[s].photoCount > 0 ensures s in Ids(withPhotos) {
          var i :| 0 <= i < |all| && Ids(all)[i] == s;
          assert all[i] in withPhotos;
          var j :| 0 <= j < |withPhotos| && withPhotos[j] == all[i];
          assert Ids(withPhotos)[j] == s;
        }
        forall g | g in groups ensures g.sol in sols && g == SummaryGroup(StoredSol(g.sol, sols[g.sol])) {
          var i :| 0 <= i < |groups| && groups[i] == g;
          assert withPhotos[i] in all;
        }
        r := Ok(groups);
      }
    }
  }

  lemma MergeThenUpdate(a: map<int, SolDoc>, b: map<int, SolDoc>, k: int, v: SolDoc)
    ensures (a + b)[k := v] == a + b[k := v]
  {
  }

  predicate HasRange(solRange: Option<seq<int>>) {
    solRange.Some? && solRange.value != []
  }

  /** Picks the least element of a non-empty set of sols. */
  method Smallest(s: set<int>) returns (m: int)
    requires |s| > 0
    ensures m in s && forall k :: k in s ==> m <= k
  {
    ghost var w := Element(s);
    m :| m in s;
    var rest := s - {m};
    while |rest| > 0
      invariant rest <= s && m in s
      invariant forall k :: k in s && k !in rest ==> m <= k
      decreases |rest|
    {
      ghost var w' := Element(rest);
      var k :| k in rest;
      if k < m {
        m := k;
      }
      rest := rest - {k};
    }
  }

  /** `allSols.filter(solData => solData.photoCount > 0)`: order is kept, so
      ascending ids stay ascending. */
  function WithPhotoCount(docs: seq<StoredSol>): (r: seq<StoredSol>)
    ensures forall d :: d in r <==> d in docs && d.doc.photoCount > 0
    ensures StrictlyAscending(Ids(docs)) ==> StrictlyAscending(Ids(r))
  {
    if docs == [] then []
    else
      var front := docs[..|docs| - 1];
      var last := docs[|docs| - 1];
      assert docs == front + [last];
      var r := WithPhotoCount(front);
      AscendingFront(docs);
      if last.doc.photoCount > 0 then
        AscendingSnoc(r, last);
        r + [last]
      else
        r
  }

  /** Dropping the last document keeps the ids ascending, and below the
      last one. */
  lemma AscendingFront(docs: seq<StoredSol>)
    requires |docs| > 0
    ensures StrictlyAscending(Ids(docs)) ==> StrictlyAscending(Ids(docs[..|docs| - 1]))
    ensures StrictlyAscending(Ids(docs)) ==> forall x :: x in docs[..|docs| - 1] ==> x.id < docs[|docs| - 1].id
  {
    if StrictlyAscending(Ids(docs)) {
      var front := docs[..|docs| - 1];
      forall i, j | 0 <= i < j < |front| ensures Ids(front)[i] < Ids(front)[j] {
        assert Ids(docs)[i] < Ids(docs)[j];
      }
      forall x | x in front ensures x.id < docs[|docs| - 1].id {
        var i :| 0 <= i < |front| && front[i] == x;
        assert Ids(docs)[i] < Ids(docs)[|docs| - 1];
      }
    }
  }

  /** Appending a document above every id keeps the ids ascending. */
  lemma AscendingSnoc(r: seq<StoredSol>, last: StoredSol)
    ensures StrictlyAscending(Ids(r)) && (forall x :: x in r ==> x.id < last.id) ==> StrictlyAscending(Ids(r + [last]))
  {
    if !(StrictlyAscending(Ids(r)) && forall x :: x in r ==> x.id < last.id) {
      return;
    }
    var r' := r + [last];
    forall i, j | 0 <= i < j < |r'| ensures Ids(r')[i] < Ids(r')[j] {
      if j == |r'| - 1 {
        assert r'[i] in r;
      } else {
        assert Ids(r)[i] < Ids(r)[j];
      }
    }
  }

  /** The summary group the resolver makes of a stored sol. */
  function SummaryGroup(d: StoredSol): PhotoGroup {
    PhotoGroup(d.id, d.doc.photoCount, FirstCamera(d.doc.cameras), [])
  }

  /** A requested sol is answered when it is stored with photos and, with a
      camera chosen, lists that camera. */
  predicate Answered(sols: map<int, SolDoc>, sol: int, camera: Option<string>) {
    sol in sols && sols[sol].photoCount > 0 && (!Truthy(camera) || camera.value in sols[sol].cameras)
  }

  /** What the solRange loop yields for `solRange`: an error if an answered
      sol needs photos and there is no key, else the groups in request order. */
  function RangeGroups(sols: map<int, SolDoc>, solRange: seq<int>, camera: Option<string>, summaryOnly: bool,
                       apiKey: Option<string>, fetch: (int, Option<string>) -> Option<seq<Photo>>): Result<seq<PhotoGroup>, string>
  {
    if solRange == [] then Ok([])
    else
      var front := RangeGroups(sols, solRange[..|solRange| - 1], camera, summaryOnly, apiKey, fetch);
      var sol := solRange[|solRange| - 1];
      if front.Err? || !Answered(sols, sol, camera) then front
      else if !summaryOnly && !Truthy(apiKey) then Err(MissingKeyMessage)
      else
        var cameraFilter := if Truthy(camera) then camera else None;
        var photos := if summaryOnly then [] else fetch(sol, cameraFilter).GetOr([]);
        var shown := if Truthy(camera) then camera else FirstCamera(sols[sol].cameras);
        Ok(front.value + [PhotoGroup(sol, |photos|, shown, photos)])
  }

  /** Once a prefix of the range fails, the whole range fails the same way. */
  lemma {:induction false} RangeGroupsErrorStays(sols: map<int, SolDoc>, solRange: seq<int>, n: nat, camera: Option<string>,
                                                 summaryOnly: bool, apiKey: Option<string>,
                                                 fetch: (int, Option<string>) -> Option<seq<Photo>>)
    requires n <= |solRange|
    requires RangeGroups(sols, solRange[..n], camera, summaryOnly, apiKey, fetch).Err?
    ensures RangeGroups(sols, solRange, camera, summaryOnly, apiKey, fetch) ==
            RangeGroups(sols, solRange[..n], camera, summaryOnly, apiKey, fetch)
    decreases |solRange| - n
  {
    if n < |solRange| {
      var longer := solRange[..n + 1];
      assert longer[..n] == solRange[..n];
      RangeGroupsErrorStays(sols, solRange, n + 1, camera, summaryOnly, apiKey, fetch);
    } else {
      assert solRange[..n] == solRange;
    }
  }

  /** Each group answers a requested sol, counts exactly its photos, carries
      the chosen camera, and has no photos in summary mode; every answered
      sol of the range has a group; a missing key fails only when photos
      are needed. */
  lemma {:induction false} RangeGroupsSpec(sols: map<int, SolDoc>, solRange: seq<int>, camera: Option<string>, summaryOnly: bool,
                                           apiKey: Option<string>, fetch: (int, Option<string>) -> Option<seq<Photo>>,
                                           r: Result<seq<PhotoGroup>, string>)
    requires r == RangeGroups(sols, solRange, camera, summaryOnly, apiKey, fetch)
    ensures r.Err? <==> !summaryOnly && !Truthy(apiKey) && exists s :: s in solRange && Answered(sols, s, camera)
    ensures r.Ok? ==> |r.value| <= |solRange|
    ensures r.Ok? ==> forall g :: g in r.value ==>
                        g.sol in solRange && Answered(sols, g.sol, camera) && g.photoCount == |g.photos| &&
                        (summaryOnly ==> g.photos == []) && (Truthy(camera) ==> g.camera == camera)
    ensures r.Ok? ==> forall s :: s in solRange && Answered(sols, s, camera) ==> s in GroupSols(r.value)
  {
    if solRange != [] {
      var front := solRange[..|solRange| - 1];
      var sol := solRange[|solRange| - 1];
      assert solRange == front + [sol];
      var f := RangeGroups(sols, front, camera, summaryOnly, apiKey, fetch);
      RangeGroupsSpec(sols, front, camera, summaryOnly, apiKey, fetch, f);
      if r.Ok? {
        assert f.Ok?;
        forall s | s in solRange && Answered(sols, s, camera) ensures s in GroupSols(r.value) {
          if s in front {
            var k :| 0 <= k < |f.value| && GroupSols(f.value)[k] == s;
            assert GroupSols(r.value)[k] == s;
          } else {
            assert GroupSols(r.value)[|r.value| - 1] == s;
          }
        }
      }
    }
  }
}
