/** The Express proxy `GET /api/apod/last7days`: the last month of APOD
    items, kept to space photos, behind a six-hour single-slot cache. The
    upstream request is a parameter: `Some(items)` for NASA's answer, `None`
    for a failed request. */
module RestApi {
  import opened Wrappers
  import opened SpaceFilter
  import opened TtlCache

  datatype Response = Json200(items: seq<ApodItem>) | Error500(error: string)

  const FetchFailedMessage := "Failed to fetch data from NASA API"

  /** Every item the cache holds is a space photo. */
  predicate CacheHoldsSpacePhotos(slot: Slot<seq<ApodItem>>) {
    slot.data.Some? ==> forall x :: x in slot.data.value ==> IsSpacePhoto(x)
  }

  class Server {
    var apodCache: Slot<seq<ApodItem>>

    /** The module-level `apodCache = { data: null, timestamp: 0 }`. */
    constructor ()
      ensures apodCache == Slot(None, 0)
      ensures CacheHoldsSpacePhotos(apodCache)
    {
      apodCache := Slot(None, 0);
    }

    /** The route handler at time `now`. A fresh cache is served as is;
        otherwise the upstream answer is filtered, cached and sent, and a
        failed request gives a 500 and leaves the cache alone. */
    method Last7Days(now: int, upstream: Option<seq<ApodItem>>) returns (resp: Response)
      requires CacheHoldsSpacePhotos(apodCache)
      modifies this
      ensures CacheHoldsSpacePhotos(apodCache)
      ensures Fresh(old(apodCache), now) ==> resp == Json200(old(apodCache).data.value) && apodCache == old(apodCache)
      ensures !Fresh(old(apodCache), now) && upstream.None? ==>
        resp == Error500(FetchFailedMessage) && apodCache == old(apodCache)
      ensures !Fresh(old(apodCache), now) && upstream.Some? ==>
        resp == Json200(SpacePhotos(upstream.value)) && apodCache == Refill(SpacePhotos(upstream.value), now)
      ensures resp.Json200? ==> forall x :: x in resp.items ==> IsSpacePhoto(x) && x.mediaType == "image"
    {
      var cached := Serve(apodCache, now);
      if cached.Some? {
        return Json200(cached.value);
      }
      if upstream.None? {
        return Error500(FetchFailedMessage);
      }
      var spacePhotos := SpacePhotos(upstream.value);
      apodCache := Refill(spacePhotos, now);
      resp := Json200(spacePhotos);
    }
  }
}
