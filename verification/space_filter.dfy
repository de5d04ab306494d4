/** The "space photo" filter that the REST proxy (`nasa-api-RESTAPI`) and the
    GraphQL server (`nasa-api-graphql`) apply, word for word the same, to a
    month of Astronomy Pictures of the Day. */
module SpaceFilter {
  import opened Wrappers
  import opened Text

  /** One raw APOD item; `title`, `explanation`, `url` and `hdurl` may be
      missing from NASA's JSON. */
  datatype ApodItem = ApodItem(
    date: string,
    title: Option<string>,
    explanation: Option<string>,
    url: Option<string>,
    hdurl: Option<string>,
    mediaType: string)

  /** `spaceImageKeywords`, in the order the source lists them. */
  const Keywords: seq<string> :=
    ["nebula", "galaxy", "cluster", "moon", "sun", "planet", "star", "comet", "asteroid", "aurora"]

  /** `text?.toLowerCase().includes(keyword)`, a missing text being false. */
  predicate Mentions(text: Option<string>, keyword: string) {
    text.Some? && Contains(ToLower(text.value), keyword)
  }

  /** `keywords.some(k => title mentions k || explanation mentions k)`. */
  function AnyKeyword(item: ApodItem, keywords: seq<string>): (r: bool)
    ensures r <==> exists i :: 0 <= i < |keywords| &&
                     (Mentions(item.title, keywords[i]) || Mentions(item.explanation, keywords[i]))
  {
    if keywords == [] then false
    else if Mentions(item.title, keywords[0]) || Mentions(item.explanation, keywords[0]) then true
    else
      var r := AnyKeyword(item, keywords[1..]);
      assert r ==> exists i :: 0 <= i < |keywords| &&
                     (Mentions(item.title, keywords[i]) || Mentions(item.explanation, keywords[i])) by {
        if r {
          var i :| 0 <= i < |keywords[1..]| &&
                   (Mentions(item.title, keywords[1..][i]) || Mentions(item.explanation, keywords[1..][i]));
          assert keywords[1..][i] == keywords[i + 1];
        }
      }
      assert (exists i :: 0 <= i < |keywords| &&
               (Mentions(item.title, keywords[i]) || Mentions(item.explanation, keywords[i]))) ==> r by {
        if exists i :: 0 <= i < |keywords| &&
             (Mentions(item.title, keywords[i]) || Mentions(item.explanation, keywords[i])) {
          var i :| 0 <= i < |keywords| &&
                   (Mentions(item.title, keywords[i]) || Mentions(item.explanation, keywords[i]));
          assert i > 0 && keywords[1..][i - 1] == keywords[i];
        }
      }
      r
  }

  /** `item.media_type === 'image' && item.hdurl`. */
  predicate IsHdImage(item: ApodItem) {
    item.mediaType == "image" && Truthy(item.hdurl)
  }

  predicate IsSpacePhoto(item: ApodItem) {
    IsHdImage(item) && AnyKeyword(item, Keywords)
  }

  /** `imagesOnly`: the raw items that are images with an hdurl, in order. */
  function ImagesOnly(raw: seq<ApodItem>): (r: seq<ApodItem>)
    ensures forall x :: x in r <==> x in raw && IsHdImage(x)
  {
    if raw == [] then []
    else
      var front := raw[..|raw| - 1];
      var last := raw[|raw| - 1];
      assert raw == front + [last];
      if IsHdImage(last) then ImagesOnly(front) + [last] else ImagesOnly(front)
  }

  /** The keyword filter applied to `imagesOnly`, in order. */
  function WithKeyword(items: seq<ApodItem>): (r: seq<ApodItem>)
    ensures forall x :: x in r <==> x in items && AnyKeyword(x, Keywords)
  {
    if items == [] then []
    else
      var front := items[..|items| - 1];
      var last := items[|items| - 1];
      assert items == front + [last];
      if AnyKeyword(last, Keywords) then WithKeyword(front) + [last] else WithKeyword(front)
  }

  /** `spacePhotos`: what both servers return and cache. */
  function SpacePhotos(raw: seq<ApodItem>): (r: seq<ApodItem>)
    ensures forall x :: x in r <==> x in raw && IsSpacePhoto(x)
    ensures |r| <= |raw|
  {
    ImagesOnlyShorter(raw);
    WithKeywordShorter(ImagesOnly(raw));
    WithKeyword(ImagesOnly(raw))
  }

  lemma {:induction false} ImagesOnlyShorter(raw: seq<ApodItem>)
    ensures |ImagesOnly(raw)| <= |raw|
  {
    if raw != [] {
      ImagesOnlyShorter(raw[..|raw| - 1]);
    }
  }

  lemma {:induction false} WithKeywordShorter(items: seq<ApodItem>)
    ensures |WithKeyword(items)| <= |items|
  {
    if items != [] {
      WithKeywordShorter(items[..|items| - 1]);
    }
  }

  lemma {:induction false} ImagesOnlyAppend(a: seq<ApodItem>, b: seq<ApodItem>)
    ensures ImagesOnly(a + b) == ImagesOnly(a) + ImagesOnly(b)
    decreases |b|
  {
    if b == [] {
      assert a + b == a;
    } else {
      assert (a + b)[..|a + b| - 1] == a + b[..|b| - 1];
      ImagesOnlyAppend(a, b[..|b| - 1]);
    }
  }

  lemma {:induction false} WithKeywordAppend(a: seq<ApodItem>, b: seq<ApodItem>)
    ensures WithKeyword(a + b) == WithKeyword(a) + WithKeyword(b)
    decreases |b|
  {
    if b == [] {
      assert a + b == a;
    } else {
      assert (a + b)[..|a + b| - 1] == a + b[..|b| - 1];
      WithKeywordAppend(a, b[..|b| - 1]);
    }
  }

  /** The filter keeps the upstream order: filtering a concatenation is the
      concatenation of the filtered parts. */
  lemma SpacePhotosAppend(a: seq<ApodItem>, b: seq<ApodItem>)
    ensures SpacePhotos(a + b) == SpacePhotos(a) + SpacePhotos(b)
  {
    ImagesOnlyAppend(a, b);
    WithKeywordAppend(ImagesOnly(a), ImagesOnly(b));
  }

  lemma {:induction false} ImagesOnlyKeepsAll(raw: seq<ApodItem>)
    requires forall x :: x in raw ==> IsHdImage(x)
    ensures ImagesOnly(raw) == raw
  {
    if raw != [] {
      ImagesOnlyKeepsAll(raw[..|raw| - 1]);
      assert raw == raw[..|raw| - 1] + [raw[|raw| - 1]];
    }
  }

  lemma {:induction false} WithKeywordKeepsAll(items: seq<ApodItem>)
    requires forall x :: x in items ==> AnyKeyword(x, Keywords)
    ensures WithKeyword(items) == items
  {
    if items != [] {
      var front, last := items[..|items| - 1], items[|items| - 1];
      assert items == front + [last];
      assert AnyKeyword(last, Keywords);
      WithKeywordKeepsAll(front);
    }
  }

  /** Filtering what was already filtered changes nothing, so a cached result
      is itself a fixed point of the filter. */
  lemma SpacePhotosIdempotent(raw: seq<ApodItem>)
    ensures SpacePhotos(SpacePhotos(raw)) == SpacePhotos(raw)
  {
    var once := SpacePhotos(raw);
    ImagesOnlyKeepsAll(once);
    WithKeywordKeepsAll(once);
  }

  /** An APOD image titled "Spiral Galaxy M51" is a space photo; a video, or
      an image without an hdurl, is not, whatever its title. */
  lemma SpacePhotoExamples()
    ensures IsSpacePhoto(ApodItem("2024-01-01", Some("Spiral Galaxy M51"), None, None, Some("hd.jpg"), "image"))
    ensures !IsSpacePhoto(ApodItem("2024-01-01", Some("Spiral Galaxy M51"), None, None, Some("hd.jpg"), "video"))
    ensures !IsSpacePhoto(ApodItem("2024-01-01", Some("Spiral Galaxy M51"), None, None, None, "image"))
  {
    var title := "Spiral Galaxy M51";
    var lower := ToLower(title);
    assert lower == "spiral galaxy m51";
    assert lower[7..13] == "galaxy";
    assert OccursAt(lower, Keywords[1], 7);
  }
}
