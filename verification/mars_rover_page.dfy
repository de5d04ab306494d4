/** `MarsRoverPage`: the client-side shaping of the rover summary into the
    bar chart (28 sols with photos per bar) and the radial view, the photo
    modal's 25-per-page pagination, and the page's selection state. The
    query results arrive as parameters. */
module MarsRoverPage {
  import opened Wrappers
  import opened Text
  import opened RoverSync

  const PhotosPerPage := 25
  const SolsPerBar := 28

  /** `ChartDataItem`; `earth_date` is always '' in the summary. */
  datatype ChartItem = ChartItem(sol: int, count: int, cameras: seq<string>, earthDate: string)

  /** A bar of the bar chart. */
  datatype Bar = Bar(startSol: int, endSol: int, sols: seq<ChartItem>, totalPhotos: int)

  function Min(a: int, b: int): int {
    if a <= b then a else b
  }

  // ---------------------------------------------------------------------
  // allChartData

  /** The chart item of one summary group: `photoCount || 0` and
      `[camera || '']`. */
  function ItemOf(g: PhotoGroup): (item: ChartItem)
    ensures item.sol == g.sol && item.count == g.photoCount
    ensures item.cameras == [if g.camera.Some? then g.camera.value else ""]
  {
    ChartItem(g.sol, if g.photoCount != 0 then g.photoCount else 0, [if Truthy(g.camera) then g.camera.value else ""], "")
  }

  /** `groups.filter(group => group.camera === camera)`. */
  function ForCamera(groups: seq<PhotoGroup>, camera: string): (r: seq<PhotoGroup>)
    ensures |r| <= |groups|
    ensures forall i :: 0 <= i < |r| ==> r[i].camera == Some(camera) && r[i] in groups
    ensures forall g :: g in groups && g.camera == Some(camera) ==> g in r
  {
    if |groups| == 0 then []
    else (if groups[0].camera == Some(camera) then [groups[0]] else []) + ForCamera(groups[1..], camera)
  }

  /** The camera filter keeps the summary's order: it works on a list piece
      by piece. */
  lemma {:induction false} ForCameraAppend(a: seq<PhotoGroup>, b: seq<PhotoGroup>, camera: string)
    ensures ForCamera(a + b, camera) == ForCamera(a, camera) + ForCamera(b, camera)
  {
    if |a| == 0 {
      assert a + b == b;
    } else {
      assert (a + b)[0] == a[0] && (a + b)[1..] == a[1..] + b;
      ForCameraAppend(a[1..], b, camera);
    }
  }

  function ItemsOf(groups: seq<PhotoGroup>): (r: seq<ChartItem>)
    ensures |r| == |groups| && forall i :: 0 <= i < |r| ==> r[i] == ItemOf(groups[i])
  {
    seq(|groups|, i requires 0 <= i < |groups| => ItemOf(groups[i]))
  }

  /** `allChartData`: nothing without a summary; with a camera selected only
      that camera's groups, every one of them; otherwise every group, in
      order. */
  function AllChartData(summary: Option<seq<PhotoGroup>>, selectedCamera: Option<string>): (r: seq<ChartItem>)
    ensures summary.None? ==> r == []
    ensures summary.Some? && !Truthy(selectedCamera) ==>
      |r| == |summary.value| && forall i :: 0 <= i < |r| ==> r[i] == ItemOf(summary.value[i])
    ensures summary.Some? && Truthy(selectedCamera) ==>
      && r == ItemsOf(ForCamera(summary.value, selectedCamera.value))
      && (forall i :: 0 <= i < |r| ==> r[i].cameras == [selectedCamera.value])
      && (forall i :: 0 <= i < |r| ==>
            exists g :: g in summary.value && g.camera == selectedCamera && r[i] == ItemOf(g))
      && (forall g :: g in summary.value && g.camera == selectedCamera ==> ItemOf(g) in r)
  {
    if summary.None? then []
    else if Truthy(selectedCamera) then
      var kept := ForCamera(summary.value, selectedCamera.value);
      var r := ItemsOf(kept);
      assert forall i :: 0 <= i < |r| ==> kept[i] in summary.value && kept[i].camera == selectedCamera && r[i] == ItemOf(kept[i]);
      assert forall g :: g in summary.value && g.camera == selectedCamera ==> ItemOf(g) in r by {
        forall g | g in summary.value && g.camera == selectedCamera
          ensures ItemOf(g) in r
        {
          var i :| 0 <= i < |kept| && kept[i] == g;
          assert r[i] == ItemOf(g);
        }
      }
      r
    else ItemsOf(summary.value)
  }

  // ---------------------------------------------------------------------
  // barChartData

  /** `items.filter(item => item.count > 0)`. */
  function WithPhotos(items: seq<ChartItem>): (r: seq<ChartItem>)
    ensures forall x :: multiset(r)[x] == if x.count > 0 then multiset(items)[x] else 0
  {
    if |items| == 0 then []
    else
      var rest := WithPhotos(items[1..]);
      assert items == [items[0]] + items[1..];
      if items[0].count > 0 then [items[0]] + rest else rest
  }

  predicate SortedBySol(s: seq<ChartItem>) {
    forall i, j :: 0 <= i < j < |s| ==> s[i].sol <= s[j].sol
  }

  /** Inserts `x` before the first item whose sol is not smaller, so that it
      stays ahead of the items with its sol. */
  function Insert(x: ChartItem, s: seq<ChartItem>): (r: seq<ChartItem>)
    requires SortedBySol(s)
    ensures SortedBySol(r) && multiset(r) == multiset(s) + multiset{x}
  {
    if |s| == 0 then [x]
    else if x.sol <= s[0].sol then [x] + s
    else
      var rest := Insert(x, s[1..]);
      InsertBehindHead(x, s, rest);
      [s[0]] + rest
  }

  /** When `x` goes after the head, the head followed by the insertion into
      the tail is sorted and holds the same items. */
  lemma InsertBehindHead(x: ChartItem, s: seq<ChartItem>, rest: seq<ChartItem>)
    requires SortedBySol(s) && |s| > 0 && s[0].sol < x.sol
    requires SortedBySol(rest) && multiset(rest) == multiset(s[1..]) + multiset{x}
    ensures SortedBySol([s[0]] + rest) && multiset([s[0]] + rest) == multiset(s) + multiset{x}
  {
    var tail := s[1..];
    assert s == [s[0]] + tail;
    forall k | 0 <= k < |rest|
      ensures s[0].sol <= rest[k].sol
    {
      assert rest[k] in multiset(rest);
      if rest[k] != x {
        assert rest[k] in multiset(tail);
        var j :| 0 <= j < |tail| && tail[j] == rest[k];
        assert s[j + 1] == rest[k];
      }
    }
    var r := [s[0]] + rest;
    forall i, j | 0 <= i < j < |r|
      ensures r[i].sol <= r[j].sol
    {
      if i > 0 {
        assert r[i] == rest[i - 1] && r[j] == rest[j - 1];
      } else {
        assert r[j] == rest[j - 1];
      }
    }
  }

  /** `.sort((a, b) => a.sol - b.sol)`: a stable sort by sol. */
  function SortBySol(s: seq<ChartItem>): (r: seq<ChartItem>)
    ensures SortedBySol(r) && multiset(r) == multiset(s)
  {
    if |s| == 0 then []
    else
      assert s == [s[0]] + s[1..];
      Insert(s[0], SortBySol(s[1..]))
  }

  /** The list the bars are cut from. */
  function BarInput(all: seq<ChartItem>): seq<ChartItem> {
    SortBySol(WithPhotos(all))
  }

  /** The bar input is sorted by sol, and is exactly the items with photos,
      each as often as it occurs. */
  lemma BarInputIsSortedWithPhotos(all: seq<ChartItem>)
    ensures SortedBySol(BarInput(all))
    ensures forall x :: multiset(BarInput(all))[x] == if x.count > 0 then multiset(all)[x] else 0
    ensures forall x :: x in BarInput(all) <==> x in all && x.count > 0
  {
    var r := BarInput(all);
    forall x ensures x in r <==> x in all && x.count > 0 {
      assert x in r <==> multiset(r)[x] > 0;
      assert x in all <==> multiset(all)[x] > 0;
    }
  }

  /** `chunk.reduce((sum, item) => sum + item.count, 0)`. */
  function TotalCount(items: seq<ChartItem>): int {
    if |items| == 0 then 0 else items[0].count + TotalCount(items[1..])
  }

  lemma {:induction false} TotalCountAppend(a: seq<ChartItem>, b: seq<ChartItem>)
    ensures TotalCount(a + b) == TotalCount(a) + TotalCount(b)
  {
    if |a| == 0 {
      assert a + b == b;
    } else {
      assert (a + b)[1..] == a[1..] + b;
      TotalCountAppend(a[1..], b);
    }
  }

  function BarOf(chunk: seq<ChartItem>): Bar
    requires |chunk| > 0
  {
    Bar(chunk[0].sol, chunk[|chunk| - 1].sol, chunk, TotalCount(chunk))
  }

  /** The bars cut from `s`, 28 items at a time. */
  function Bars(s: seq<ChartItem>): seq<Bar>
    decreases |s|
  {
    if |s| == 0 then []
    else
      var n := Min(SolsPerBar, |s|);
      [BarOf(s[..n])] + Bars(s[n..])
  }

  /** The items of the bars, one after the other. */
  function ItemsOfBars(bars: seq<Bar>): seq<ChartItem> {
    if |bars| == 0 then [] else bars[0].sols + ItemsOfBars(bars[1..])
  }

  /** The bars partition the list in order: their items put together are the
      list, every bar but the last holds exactly 28 items and the last one
      between 1 and 28. */
  lemma {:induction false} BarsPartition(s: seq<ChartItem>)
    ensures ItemsOfBars(Bars(s)) == s
    ensures |Bars(s)| == (|s| + SolsPerBar - 1) / SolsPerBar
    ensures forall i :: 0 <= i < |Bars(s)| - 1 ==> |Bars(s)[i].sols| == SolsPerBar
    ensures |Bars(s)| > 0 ==> 0 < |Bars(s)[|Bars(s)| - 1].sols| <= SolsPerBar
    decreases |s|
  {
    if |s| > 0 {
      var n := Min(SolsPerBar, |s|);
      BarsPartition(s[n..]);
      var bars := Bars(s);
      assert bars[1..] == Bars(s[n..]);
      assert s[..n] + s[n..] == s;
    }
  }

  /** Each bar runs from its first to its last sol, counts its photos, and
      on a list sorted by sol the bars follow each other without overlap. */
  lemma {:induction false} BarsFields(s: seq<ChartItem>)
    ensures forall b :: b in Bars(s) ==>
      |b.sols| > 0 && b.startSol == b.sols[0].sol && b.endSol == b.sols[|b.sols| - 1].sol && b.totalPhotos == TotalCount(b.sols)
    ensures SortedBySol(s) ==> forall i :: 0 <= i < |Bars(s)| ==> Bars(s)[i].startSol <= Bars(s)[i].endSol
    ensures SortedBySol(s) ==> forall i :: 0 <= i < |Bars(s)| - 1 ==> Bars(s)[i].endSol <= Bars(s)[i + 1].startSol
    decreases |s|
  {
    if |s| > 0 {
      var n := Min(SolsPerBar, |s|);
      var rest := s[n..];
      BarsFields(rest);
      var bars := Bars(s);
      assert bars[1..] == Bars(rest);
      if SortedBySol(s) {
        assert SortedBySol(rest);
        if |Bars(rest)| > 0 {
          BarsPartition(rest);
          assert ItemsOfBars(Bars(rest)) == rest;
          assert Bars(rest)[0].sols == rest[..|Bars(rest)[0].sols|];
          assert bars[1].startSol == s[n].sol;
        }
      }
    }
  }

  /** The photo counts of all bars add up to the photos of the list. */
  lemma {:induction false} BarsTotal(s: seq<ChartItem>)
    ensures TotalOfBars(Bars(s)) == TotalCount(s)
    decreases |s|
  {
    if |s| > 0 {
      var n := Min(SolsPerBar, |s|);
      BarsTotal(s[n..]);
      assert Bars(s)[1..] == Bars(s[n..]);
      assert s[..n] + s[n..] == s;
      TotalCountAppend(s[..n], s[n..]);
    }
  }

  function TotalOfBars(bars: seq<Bar>): int {
    if |bars| == 0 then 0 else bars[0].totalPhotos + TotalOfBars(bars[1..])
  }

  /** `barChartData`: the index loop stepping by 28 over the sorted items
      with photos, pushing one bar per non-empty chunk. */
  method BarChartData(all: seq<ChartItem>) returns (groups: seq<Bar>)
    ensures groups == Bars(BarInput(all))
  {
    if |all| == 0 {
      return [];
    }
    groups := CutBars(BarInput(all));
  }

  /** The loop of `barChartData` over the sorted items with photos. */
  method CutBars(solsWithPhotos: seq<ChartItem>) returns (groups: seq<Bar>)
    ensures groups == Bars(solsWithPhotos)
  {
    groups := [];
    var i := 0;
    while i < |solsWithPhotos|
      invariant 0 <= i <= |solsWithPhotos|
      invariant groups + Bars(solsWithPhotos[i..]) == Bars(solsWithPhotos)
      decreases |solsWithPhotos| - i
    {
      var end := Min(i + SolsPerBar, |solsWithPhotos|);
      var chunk := solsWithPhotos[i..end];
      BarsStep(solsWithPhotos, i);
      if |chunk| > 0 {
        groups := groups + [BarOf(chunk)];
      }
      i := end;
    }
    assert solsWithPhotos[i..] == [];
  }

  /** One step of the loop: the bars from `i` on are the chunk at `i`
      followed by the bars after it. */
  lemma BarsStep(s: seq<ChartItem>, i: nat)
    requires i < |s|
    ensures Bars(s[i..]) == [BarOf(s[i..Min(i + SolsPerBar, |s|)])] + Bars(s[Min(i + SolsPerBar, |s|)..])
  {
    var end := Min(i + SolsPerBar, |s|);
    assert s[i..][..end - i] == s[i..end];
    assert s[i..][end - i..] == s[end..];
  }

  // ---------------------------------------------------------------------
  // radialChartData

  /** `radialChartData`: the selected bar's sols when that bar exists,
      otherwise the first 28 chart items. */
  function RadialData(all: seq<ChartItem>, selectedBar: int): seq<ChartItem> {
    var bars := Bars(BarInput(all));
    if |all| == 0 then []
    else if 0 <= selectedBar < |bars| then bars[selectedBar].sols
    else all[..Min(SolsPerBar, |all|)]
  }

  /** The radial view never shows more than 28 items, and shows only chart
      items; a selected bar shows only items with photos. */
  lemma RadialBounded(all: seq<ChartItem>, selectedBar: int)
    ensures |RadialData(all, selectedBar)| <= SolsPerBar
    ensures forall x :: x in RadialData(all, selectedBar) ==> x in all
    ensures 0 <= selectedBar < |Bars(BarInput(all))| ==> forall x :: x in RadialData(all, selectedBar) ==> x.count > 0
  {
    var s := BarInput(all);
    var bars := Bars(s);
    if |all| > 0 && 0 <= selectedBar < |bars| {
      SelectedBarBounded(all, selectedBar);
    }
  }

  lemma SelectedBarBounded(all: seq<ChartItem>, k: int)
    requires 0 <= k < |Bars(BarInput(all))|
    ensures |Bars(BarInput(all))[k].sols| <= SolsPerBar
    ensures forall x :: x in Bars(BarInput(all))[k].sols ==> x in all && x.count > 0
  {
    var s := BarInput(all);
    BarAtMost28(s, k);
    BarItemsWithPhotos(all, k);
  }

  lemma {:induction false} BarAtMost28(s: seq<ChartItem>, k: int)
    requires 0 <= k < |Bars(s)|
    ensures |Bars(s)[k].sols| <= SolsPerBar
    decreases |s|
  {
    var n := Min(SolsPerBar, |s|);
    if k > 0 {
      assert Bars(s)[k] == Bars(s[n..])[k - 1];
      BarAtMost28(s[n..], k - 1);
    }
  }

  lemma BarItemsWithPhotos(all: seq<ChartItem>, k: int)
    requires 0 <= k < |Bars(BarInput(all))|
    ensures forall x :: x in Bars(BarInput(all))[k].sols ==> x in all && x.count > 0
  {
    var s := BarInput(all);
    var bars := Bars(s);
    BarsPartition(s);
    BarItemsInList(bars, k);
    BarInputIsSortedWithPhotos(all);
  }

  lemma {:induction false} BarItemsInList(bars: seq<Bar>, k: int)
    requires 0 <= k < |bars|
    ensures forall x :: x in bars[k].sols ==> x in ItemsOfBars(bars)
  {
    if k > 0 {
      BarItemsInList(bars[1..], k - 1);
    }
  }

  // ---------------------------------------------------------------------
  // Photo modal pagination

  /** `photos.slice(page * 25, (page + 1) * 25)`. */
  function PageOf(photos: seq<Photo>, page: nat): seq<Photo> {
    photos[Min(page * PhotosPerPage, |photos|)..Min((page + 1) * PhotosPerPage, |photos|)]
  }

  /** `Math.ceil(n / 25)`. */
  function PageCount(n: nat): nat {
    (n + PhotosPerPage - 1) / PhotosPerPage
  }

  /** The Next button's `disabled`. */
  predicate NextDisabled(page: nat, n: nat) {
    (page + 1) * PhotosPerPage >= n
  }

  /** Photo `i` is item `i % 25` of page `i / 25`; no page holds more than
      25 photos, and a page is empty exactly when it starts past the end. */
  lemma PagesCoverPhotos(photos: seq<Photo>, page: nat)
    ensures forall i :: 0 <= i < |photos| ==> PageOf(photos, i / PhotosPerPage)[i % PhotosPerPage] == photos[i]
    ensures |PageOf(photos, page)| <= PhotosPerPage
    ensures |PageOf(photos, page)| == 0 <==> page * PhotosPerPage >= |photos|
  {
  }

  /** Next is disabled exactly on the last page and after it, and the page
      count is the least number of 25-photo pages that hold every photo. */
  lemma NextDisabledOnLastPage(page: nat, n: nat)
    ensures NextDisabled(page, n) <==> page + 1 >= PageCount(n)
    ensures PageCount(n) * PhotosPerPage >= n
    ensures n > 0 ==> (PageCount(n) - 1) * PhotosPerPage < n
  {
  }

  /** The page's selection state. */
  class RoverPage {
    var rover: string
    var selectedCamera: Option<string>
    var selectedSol: Option<int>
    var modalOpen: bool
    var fullscreenPhoto: Option<Photo>
    var photoPage: nat
    var selectedBar: int

    constructor ()
      ensures rover == "curiosity" && selectedCamera == None && selectedSol == None
      ensures !modalOpen && fullscreenPhoto == None && photoPage == 0 && selectedBar == 0
    {
      rover := "curiosity";
      selectedCamera := None;
      selectedSol := None;
      modalOpen := false;
      fullscreenPhoto := None;
      photoPage := 0;
      selectedBar := 0;
    }

    /** `handleRoverChange`: resets camera, sol, modal, bar and page. */
    method RoverChange(newRover: string)
      modifies this
      ensures rover == newRover && selectedCamera == None && selectedSol == None
      ensures !modalOpen && selectedBar == 0 && photoPage == 0
      ensures fullscreenPhoto == old(fullscreenPhoto)
    {
      rover := newRover;
      selectedCamera := None;
      selectedSol := None;
      modalOpen := false;
      selectedBar := 0;
      photoPage := 0;
    }

    /** `handleCameraChange`: resets sol, modal and page, keeps the rover and
        the selected bar. */
    method CameraChange(newCamera: Option<string>)
      modifies this
      ensures selectedCamera == newCamera && selectedSol == None && !modalOpen && photoPage == 0
      ensures rover == old(rover) && selectedBar == old(selectedBar) && fullscreenPhoto == old(fullscreenPhoto)
    {
      selectedCamera := newCamera;
      selectedSol := None;
      modalOpen := false;
      photoPage := 0;
    }

    /** A click on a bar. */
    method SelectBar(i: nat)
      modifies this
      ensures selectedBar == i
      ensures rover == old(rover) && selectedCamera == old(selectedCamera) && selectedSol == old(selectedSol)
      ensures modalOpen == old(modalOpen) && photoPage == old(photoPage) && fullscreenPhoto == old(fullscreenPhoto)
    {
      selectedBar := i;
    }

    /** `handleSolClick`: opens the modal on that sol; the page is kept. */
    method SolClick(sol: int)
      modifies this
      ensures selectedSol == Some(sol) && modalOpen
      ensures rover == old(rover) && selectedCamera == old(selectedCamera) && selectedBar == old(selectedBar)
      ensures photoPage == old(photoPage) && fullscreenPhoto == old(fullscreenPhoto)
    {
      selectedSol := Some(sol);
      modalOpen := true;
    }

    /** The modal's Close button: closes it and returns to the first page. */
    method CloseModal()
      modifies this
      ensures !modalOpen && photoPage == 0
      ensures rover == old(rover) && selectedCamera == old(selectedCamera) && selectedSol == old(selectedSol)
      ensures selectedBar == old(selectedBar) && fullscreenPhoto == old(fullscreenPhoto)
    {
      modalOpen := false;
      photoPage := 0;
    }

    /** A click on the modal's backdrop: closes it and keeps the page. */
    method ModalBackdrop()
      modifies this
      ensures !modalOpen && photoPage == old(photoPage)
      ensures rover == old(rover) && selectedCamera == old(selectedCamera) && selectedSol == old(selectedSol)
      ensures selectedBar == old(selectedBar) && fullscreenPhoto == old(fullscreenPhoto)
    {
      modalOpen := false;
    }

    /** Previous: `Math.max(0, p - 1)`. */
    method PreviousPage()
      modifies this
      ensures photoPage == if old(photoPage) == 0 then 0 else old(photoPage) - 1
      ensures rover == old(rover) && selectedCamera == old(selectedCamera) && selectedSol == old(selectedSol)
      ensures modalOpen == old(modalOpen) && selectedBar == old(selectedBar) && fullscreenPhoto == old(fullscreenPhoto)
    {
      photoPage := if photoPage == 0 then 0 else photoPage - 1;
    }

    /** Next, a click on the enabled button, which is shown only when the sol
        has more than 25 photos: the next page, which is never empty. */
    method NextPage(n: nat)
      requires n > PhotosPerPage && !NextDisabled(photoPage, n)
      modifies this
      ensures photoPage == old(photoPage) + 1 && photoPage * PhotosPerPage < n
      ensures rover == old(rover) && selectedCamera == old(selectedCamera) && selectedSol == old(selectedSol)
      ensures modalOpen == old(modalOpen) && selectedBar == old(selectedBar) && fullscreenPhoto == old(fullscreenPhoto)
    {
      photoPage := photoPage + 1;
    }

    /** A click on a photo of the grid, and a click on the full-screen view. */
    method OpenPhoto(photo: Photo)
      modifies this
      ensures fullscreenPhoto == Some(photo)
      ensures rover == old(rover) && selectedCamera == old(selectedCamera) && selectedSol == old(selectedSol)
      ensures modalOpen == old(modalOpen) && selectedBar == old(selectedBar) && photoPage == old(photoPage)
    {
      fullscreenPhoto := Some(photo);
    }

    method CloseFullscreen()
      modifies this
      ensures fullscreenPhoto == None
      ensures rover == old(rover) && selectedCamera == old(selectedCamera) && selectedSol == old(selectedSol)
      ensures modalOpen == old(modalOpen) && selectedBar == old(selectedBar) && photoPage == old(photoPage)
    {
      fullscreenPhoto := None;
    }
  }
}
