/** `MyFavourites`: the favourites page's list, its description cards, the
    detail modal with its full-screen view, and unfavouriting. Firestore
    reads and writes are left to the caller: a signed-in user's stored list
    arrives as a parameter. */
module MyFavouritesPage {
  import opened Wrappers
  import opened Favourites

  const CardTextLength := 90

  /** The card's description: `explanation.slice(0, 90)`, followed by
      "..." when the explanation is longer. */
  function CardText(explanation: string): (r: string)
    ensures |explanation| <= CardTextLength ==> r == explanation
    ensures |explanation| > CardTextLength ==>
      |r| == CardTextLength + 3 && r[..CardTextLength] == explanation[..CardTextLength] && r[CardTextLength..] == "..."
  {
    var n := if |explanation| <= CardTextLength then |explanation| else CardTextLength;
    explanation[..n] + (if |explanation| > CardTextLength then "..." else "")
  }

  /** A click on the backdrop or on Close: in full screen it only leaves full
      screen; otherwise it closes the modal. */
  function Dismiss(modalFav: Option<Favourite>, fullscreen: bool): (r: (Option<Favourite>, bool))
    ensures !r.1
    ensures fullscreen ==> r.0 == modalFav
    ensures !fullscreen ==> r.0 == None
  {
    if fullscreen then (modalFav, false) else (None, fullscreen)
  }

  /** Two dismissals always close the modal, whichever view it is in. */
  lemma DismissTwiceCloses(modalFav: Option<Favourite>, fullscreen: bool)
    ensures Dismiss(Dismiss(modalFav, fullscreen).0, Dismiss(modalFav, fullscreen).1) == (None, false)
  {
  }

  class MyFavourites {
    var user: Option<string>
    var favourites: seq<Favourite>
    var loading: bool
    var modalFav: Option<Favourite>
    var fullscreen: bool

    /** Full screen is only ever a view of an open modal. */
    ghost predicate Valid()
      reads this
    {
      modalFav.None? ==> !fullscreen
    }

    constructor ()
      ensures user == None && favourites == [] && loading && modalFav == None && !fullscreen
      ensures Valid()
    {
      user := None;
      favourites := [];
      loading := true;
      modalFav := None;
      fullscreen := false;
    }

    /** A change of the signed-in user, with the stored list when there is
        one (`items || []`, and [] without a document): signed out, the list
        is empty; either way loading ends. The modal is left as it is. */
    method SetUser(u: Option<string>, stored: Option<seq<Favourite>>)
      requires Valid()
      modifies this
      ensures user == u && !loading
      ensures u.None? ==> favourites == []
      ensures u.Some? ==> favourites == (if stored.Some? then stored.value else [])
      ensures modalFav == old(modalFav) && fullscreen == old(fullscreen) && Valid()
    {
      user := u;
      if u.None? {
        favourites := [];
      } else {
        favourites := if stored.Some? then stored.value else [];
      }
      loading := false;
    }

    /** A click on a card (or Enter on it) opens its modal. */
    method OpenCard(fav: Favourite)
      requires Valid() && fav in favourites
      modifies this
      ensures modalFav == Some(fav) && fullscreen == old(fullscreen) && Valid()
      ensures user == old(user) && favourites == old(favourites) && loading == old(loading)
    {
      modalFav := Some(fav);
    }

    /** The backdrop and the Close button, shown while a modal is open. */
    method DismissModal()
      requires Valid() && modalFav.Some?
      modifies this
      ensures (modalFav, fullscreen) == Dismiss(old(modalFav), old(fullscreen)) && Valid()
      ensures user == old(user) && favourites == old(favourites) && loading == old(loading)
    {
      var next := Dismiss(modalFav, fullscreen);
      modalFav := next.0;
      fullscreen := next.1;
    }

    /** View Fullscreen, shown in the open modal outside full screen. */
    method ViewFullscreen()
      requires Valid() && modalFav.Some? && !fullscreen
      modifies this
      ensures fullscreen && modalFav == old(modalFav) && Valid()
      ensures user == old(user) && favourites == old(favourites) && loading == old(loading)
    {
      fullscreen := true;
    }

    /** `handleUnfavourite(modalFav)`, shown in the open modal outside full
        screen: nothing without a user; otherwise every entry with that url
        goes, the others stay in order, and the modal closes. */
    method Unfavourite()
      requires Valid() && modalFav.Some? && !fullscreen
      modifies this
      ensures old(user).None? ==> favourites == old(favourites) && modalFav == old(modalFav)
      ensures old(user).Some? ==> favourites == WithoutUrl(old(favourites), old(modalFav).value.url) && modalFav == None
      ensures user == old(user) && loading == old(loading) && fullscreen == old(fullscreen) && Valid()
    {
      if user.None? {
        return;
      }
      favourites := WithoutUrl(favourites, modalFav.value.url);
      modalFav := None;
    }
  }
}
