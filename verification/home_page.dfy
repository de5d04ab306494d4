/** `HomePage`: the slideshow of the last week's APOD images, its panel
    toggles, and the favourites of the signed-in user. The fetched list, the
    signed-in user and the stored favourites arrive as parameters; the
    timers that drive the slideshow call `NextSlide`. */
module HomePage {
  import opened Wrappers
  import opened Text
  import opened Favourites

  /** An item of `/api/apod/last7days`. */
  datatype ApodItem = ApodItem(url: string, hdurl: Option<string>, mediaType: string, explanation: Option<string>)

  /** An image of the slideshow. */
  datatype ApodImage = ApodImage(url: string, hdurl: Option<string>, explanation: string)

  /** `{url, hdurl, explanation: item.explanation || ''}`. */
  function ImageOf(item: ApodItem): (img: ApodImage)
    ensures img.url == item.url && img.hdurl == item.hdurl
    ensures img.explanation == (if item.explanation.Some? then item.explanation.value else "")
  {
    ApodImage(item.url, item.hdurl, if Truthy(item.explanation) then item.explanation.value else "")
  }

  /** The loaded images: the image items, in order, mapped. */
  function MapImages(data: seq<ApodItem>): (r: seq<ApodImage>)
    ensures |r| <= |data|
    ensures forall img :: img in r <==> exists i :: 0 <= i < |data| && data[i].mediaType == "image" && img == ImageOf(data[i])
  {
    if |data| == 0 then []
    else
      var rest := MapImages(data[1..]);
      assert forall i :: 0 < i < |data| ==> data[i] == data[1..][i - 1];
      assert forall img :: img in rest ==> exists i :: 0 < i < |data| && data[i].mediaType == "image" && img == ImageOf(data[i]);
      (if data[0].mediaType == "image" then [ImageOf(data[0])] else []) + rest
  }

  /** The mapping keeps the order of the list: it works piece by piece. */
  lemma {:induction false} MapImagesAppend(a: seq<ApodItem>, b: seq<ApodItem>)
    ensures MapImages(a + b) == MapImages(a) + MapImages(b)
  {
    if |a| == 0 {
      assert a + b == b;
    } else {
      assert (a + b)[0] == a[0] && (a + b)[1..] == a[1..] + b;
      MapImagesAppend(a[1..], b);
      calc {
        MapImages(a + b);
        (if a[0].mediaType == "image" then [ImageOf(a[0])] else []) + MapImages(a[1..] + b);
        (if a[0].mediaType == "image" then [ImageOf(a[0])] else []) + (MapImages(a[1..]) + MapImages(b));
        MapImages(a) + MapImages(b);
      }
    }
  }

  /** `(current + 1) % apodImages.length`. */
  function NextIndex(current: int, n: int): int
    requires n > 0
  {
    (current + 1) % n
  }

  /** From an image of the slideshow the next one is the following image,
      and after the last the first. */
  lemma NextIndexCycles(current: int, n: int)
    requires 0 <= current < n
    ensures 0 <= NextIndex(current, n) < n
    ensures NextIndex(current, n) == if current == n - 1 then 0 else current + 1
  {
  }

  /** The info button: flips the description; showing it hides the
      thumbnails. */
  function InfoToggle(showExplanation: bool, showThumbnails: bool): (r: (bool, bool))
    ensures r.0 == !showExplanation
    ensures r.0 ==> !r.1
    ensures !r.0 ==> r.1 == showThumbnails
  {
    (!showExplanation, if !showExplanation then false else showThumbnails)
  }

  /** The thumbnails button: shows the thumbnails alone when they are
      hidden, and otherwise hides both panels. */
  function ThumbnailsToggle(showExplanation: bool, showThumbnails: bool): (r: (bool, bool))
    ensures !r.0
    ensures r.1 == !showThumbnails
  {
    if !showThumbnails then (false, true) else (false, false)
  }

  /** The description and the thumbnails are never shown together: the two
      buttons keep them apart from any state. */
  lemma PanelsExclusive(showExplanation: bool, showThumbnails: bool)
    ensures !(InfoToggle(showExplanation, showThumbnails).0 && InfoToggle(showExplanation, showThumbnails).1)
    ensures !(ThumbnailsToggle(showExplanation, showThumbnails).0 && ThumbnailsToggle(showExplanation, showThumbnails).1)
  {
  }

  class Home {
    var apodImages: seq<ApodImage>
    var current: int
    var showExplanation: bool
    var showThumbnails: bool
    var paused: bool
    var favorites: seq<Favourite>
    var user: Option<string>

    /** `current` indexes an image whenever there is one, and the two panels
        are never open together. */
    ghost predicate Valid()
      reads this
    {
      && 0 <= current
      && (current < |apodImages| || current == 0)
      && !(showExplanation && showThumbnails)
    }

    constructor ()
      ensures apodImages == [] && current == 0 && showExplanation && !showThumbnails && !paused
      ensures favorites == [] && user == None && Valid()
    {
      apodImages := [];
      current := 0;
      showExplanation := true;
      showThumbnails := false;
      paused := false;
      favorites := [];
      user := None;
    }

    /** The fetch on mount, before any image is shown. */
    method LoadImages(data: seq<ApodItem>)
      requires Valid() && apodImages == []
      modifies this
      ensures apodImages == MapImages(data) && current == old(current) && Valid()
      ensures favorites == old(favorites) && user == old(user) && paused == old(paused)
      ensures showExplanation == old(showExplanation) && showThumbnails == old(showThumbnails)
    {
      apodImages := MapImages(data);
    }

    /** The slideshow timer: moves to the next image unless there is none or
        the show is paused. */
    method NextSlide()
      requires Valid()
      modifies this
      ensures |apodImages| > 0 && !paused ==> current == NextIndex(old(current), |apodImages|)
      ensures |apodImages| == 0 || paused ==> current == old(current)
      ensures apodImages == old(apodImages) && favorites == old(favorites) && user == old(user) && paused == old(paused)
      ensures showExplanation == old(showExplanation) && showThumbnails == old(showThumbnails) && Valid()
    {
      if |apodImages| == 0 || paused {
        return;
      }
      current := NextIndex(current, |apodImages|);
    }

    /** A click on a thumbnail, shown with the thumbnails panel. */
    method SelectThumbnail(idx: int)
      requires Valid() && showThumbnails && 0 <= idx < |apodImages|
      modifies this
      ensures current == idx && Valid()
      ensures apodImages == old(apodImages) && favorites == old(favorites) && user == old(user) && paused == old(paused)
      ensures showExplanation == old(showExplanation) && showThumbnails == old(showThumbnails)
    {
      current := idx;
    }

    /** `isFavorite`: the current image's url is among the favourites. */
    predicate IsFavorite()
      reads this
    {
      0 <= current < |apodImages| && HasUrl(favorites, apodImages[current].url)
    }

    /** `toggleFavorite`: nothing without a current image; otherwise it
        removes every favourite with the current url, or appends the current
        image with its index as id. */
    method ToggleFavorite()
      requires Valid()
      modifies this
      ensures apodImages == old(apodImages) && current == old(current) && user == old(user) && paused == old(paused)
      ensures !(0 <= current < |apodImages|) ==> favorites == old(favorites)
      ensures old(IsFavorite()) ==> favorites == WithoutUrl(old(favorites), apodImages[current].url)
      ensures 0 <= current < |apodImages| && !old(IsFavorite()) ==>
        favorites == old(favorites) + [Favourite(apodImages[current].url, apodImages[current].explanation, current)]
      ensures showExplanation == old(showExplanation) && showThumbnails == old(showThumbnails) && Valid()
    {
      if !(0 <= current < |apodImages|) {
        return;
      }
      var img := apodImages[current];
      if IsFavorite() {
        favorites := WithoutUrl(favorites, img.url);
      } else {
        favorites := favorites + [Favourite(img.url, img.explanation, current)];
      }
    }

    /** `handleFavorite` on a thumbnail's star: nothing without a user;
        otherwise a favourite is removed by url and any other image
        appended, the other entries staying as they are. */
    method HandleFavorite(img: ApodImage, idx: int, isFav: bool)
      requires Valid()
      modifies this
      ensures user.None? ==> favorites == old(favorites)
      ensures user.Some? && isFav ==> favorites == WithoutUrl(old(favorites), img.url)
      ensures user.Some? && !isFav ==> favorites == old(favorites) + [Favourite(img.url, img.explanation, idx)]
      ensures apodImages == old(apodImages) && current == old(current) && user == old(user) && paused == old(paused)
      ensures showExplanation == old(showExplanation) && showThumbnails == old(showThumbnails) && Valid()
    {
      if user.None? {
        return;
      }
      if isFav {
        favorites := WithoutUrl(favorites, img.url);
      } else {
        favorites := favorites + [Favourite(img.url, img.explanation, idx)];
      }
    }

    /** A change of the signed-in user, with the stored list when there is
        one: signed out, no favourites. */
    method SetUser(u: Option<string>, stored: Option<seq<Favourite>>)
      requires Valid()
      modifies this
      ensures user == u
      ensures u.None? ==> favorites == []
      ensures u.Some? ==> favorites == (if stored.Some? then stored.value else [])
      ensures apodImages == old(apodImages) && current == old(current) && paused == old(paused)
      ensures showExplanation == old(showExplanation) && showThumbnails == old(showThumbnails) && Valid()
    {
      user := u;
      favorites := if u.Some? && stored.Some? then stored.value else [];
    }

    method InfoButton()
      requires Valid()
      modifies this
      ensures (showExplanation, showThumbnails) == InfoToggle(old(showExplanation), old(showThumbnails)) && Valid()
      ensures apodImages == old(apodImages) && current == old(current) && paused == old(paused)
      ensures favorites == old(favorites) && user == old(user)
    {
      var next := InfoToggle(showExplanation, showThumbnails);
      showExplanation, showThumbnails := next.0, next.1;
    }

    method ThumbnailsButton()
      requires Valid()
      modifies this
      ensures (showExplanation, showThumbnails) == ThumbnailsToggle(old(showExplanation), old(showThumbnails)) && Valid()
      ensures apodImages == old(apodImages) && current == old(current) && paused == old(paused)
      ensures favorites == old(favorites) && user == old(user)
    {
      var next := ThumbnailsToggle(showExplanation, showThumbnails);
      showExplanation, showThumbnails := next.0, next.1;
    }

    method PauseButton()
      requires Valid()
      modifies this
      ensures paused == !old(paused) && Valid()
      ensures apodImages == old(apodImages) && current == old(current) && favorites == old(favorites) && user == old(user)
      ensures showExplanation == old(showExplanation) && showThumbnails == old(showThumbnails)
    {
      paused := !paused;
    }
  }
}
