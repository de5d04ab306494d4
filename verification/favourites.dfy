/** The favourites list the home page and the favourites page share: the
    `{url, explanation, id}` entries of a user's `favorites` document. */
module Favourites {
  datatype Favourite = Favourite(url: string, explanation: string, id: int)

  /** `favs.some(fav => fav.url === url)`. */
  predicate HasUrl(favs: seq<Favourite>, url: string) {
    exists i :: 0 <= i < |favs| && favs[i].url == url
  }

  /** `favs.filter(fav => fav.url !== url)`. */
  function WithoutUrl(favs: seq<Favourite>, url: string): (r: seq<Favourite>)
    ensures |r| <= |favs|
    ensures forall f :: f in r <==> f in favs && f.url != url
    ensures !HasUrl(r, url)
  {
    if |favs| == 0 then []
    else
      var rest := WithoutUrl(favs[1..], url);
      assert favs == [favs[0]] + favs[1..];
      assert forall i :: 0 <= i < |rest| ==> rest[i] in rest;
      if favs[0].url != url then [favs[0]] + rest else rest
  }

  /** Removing by url keeps the other entries in their order: it works on a
      list piece by piece. */
  lemma {:induction false} WithoutUrlAppend(a: seq<Favourite>, b: seq<Favourite>, url: string)
    ensures WithoutUrl(a + b, url) == WithoutUrl(a, url) + WithoutUrl(b, url)
  {
    if |a| == 0 {
      assert a + b == b;
    } else {
      assert (a + b)[1..] == a[1..] + b;
      WithoutUrlAppend(a[1..], b, url);
    }
  }

  /** A list without the url is left as it is. */
  lemma {:induction false} WithoutAbsentUrl(favs: seq<Favourite>, url: string)
    requires !HasUrl(favs, url)
    ensures WithoutUrl(favs, url) == favs
  {
    if |favs| > 0 {
      assert !HasUrl(favs[1..], url);
      WithoutAbsentUrl(favs[1..], url);
      assert favs[0].url != url;
      assert favs == [favs[0]] + favs[1..];
    }
  }

  /** Adding an image that is not a favourite and removing it again gives
      back the list it started from. */
  lemma AddThenRemove(favs: seq<Favourite>, f: Favourite)
    requires !HasUrl(favs, f.url)
    ensures WithoutUrl(favs + [f], f.url) == favs
  {
    WithoutUrlAppend(favs, [f], f.url);
    WithoutAbsentUrl(favs, f.url);
    assert WithoutUrl([f], f.url) == [];
  }
}
