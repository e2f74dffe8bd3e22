/** The album viewer: which album is open, the photos it holds, the index of
    the photo shown, whether the lightbox is visible, and the preloaded set.
    Every handler of the page becomes a transition on this state. */
module Lightbox {
  import opened Wrappers
  import opened Manifest
  import opened Catalog
  import opened Preloader

  datatype Viewer = Viewer(
    album: Option<nat>,
    photos: seq<Photo>,
    current: Option<int>,
    open: bool,
    preloaded: set<string>)

  /** Page load: no album, no index (`null`), lightbox hidden, nothing preloaded. */
  const Initial: Viewer := Viewer(None, [], None, false, {})

  /** What opening an album fetched: the root manifest failed, the album's own
      manifest failed, or the album's records arrived from `folder`. */
  datatype AlbumLoad =
    | RootManifestFailed
    | AlbumManifestFailed
    | AlbumLoaded(folder: string, records: seq<Entry>)

  datatype Key = ArrowLeft | ArrowRight | Escape | OtherKey

  /** A relational comparison turns a `null` index into 0. */
  function ToNumber(o: Option<int>): int {
    if o.Some? then o.value else 0
  }

  /** The states the page can reach. The index is unset only before the first
      album; it is a live position otherwise, except after opening an empty
      album, which leaves index 0 over no photos. */
  predicate Inv(s: Viewer) {
    match s.current
    case None => s.photos == []
    case Some(i) => (s.photos == [] && i == 0) || 0 <= i < |s.photos|
  }

  /** The page starts in a state of the invariant; every transition below keeps it. */
  lemma InitialSatisfiesInv()
    ensures Inv(Initial) && !Initial.open && Initial.current == None
  {
  }

  /** `openLightbox(k)` on a live index: shows photo `k` and un-hides the lightbox. */
  function Show(s: Viewer, k: int): (r: Viewer)
    requires 0 <= k < |s.photos|
    ensures Inv(r) && r.open && r.current == Some(k)
    ensures r.photos == s.photos && r.album == s.album && r.preloaded == s.preloaded
  {
    s.(current := Some(k), open := true)
  }

  /** `openAlbum(albumIdx)` once its fetches have settled. The album's photos
      replace the previous ones, new sources are preloaded and photo 0 is
      shown. An empty album fails at the dereference of photo 0, after the
      index was set and before the lightbox was un-hidden. */
  function OpenAlbum(s: Viewer, albumIdx: nat, load: AlbumLoad): (r: Viewer)
    ensures Inv(s) ==> Inv(r)
    ensures load == RootManifestFailed ==> r == s
    ensures load == AlbumManifestFailed ==> r == s.(album := Some(albumIdx))
    ensures load.AlbumLoaded? ==>
      && Inv(r)
      && r.album == Some(albumIdx)
      && r.photos == NormalizeAll(load.folder, load.records)
      && r.current == Some(0)
      && r.preloaded == Preload(s.preloaded, r.photos).cache
    ensures load.AlbumLoaded? && |load.records| > 0 ==> r.open
    ensures load.AlbumLoaded? && |load.records| == 0 ==> r.open == s.open
  {
    match load
    case RootManifestFailed => s
    case AlbumManifestFailed => s.(album := Some(albumIdx))
    case AlbumLoaded(folder, records) =>
      var photos := NormalizeAll(folder, records);
      var loaded := s.(album := Some(albumIdx), photos := photos,
                       preloaded := Preload(s.preloaded, photos).cache);
      if |photos| > 0 then Show(loaded, 0) else loaded.(current := Some(0))
  }

  /** The previous-photo button, and the left arrow while the lightbox is visible. */
  function Prev(s: Viewer): (r: Viewer)
    requires Inv(s)
    ensures Inv(r)
    ensures r.photos == s.photos && r.album == s.album && r.preloaded == s.preloaded
    ensures ToNumber(s.current) > 0 ==> r.current == Some(s.current.value - 1) && r.open
    ensures ToNumber(s.current) <= 0 ==> r == s
  {
    if ToNumber(s.current) > 0 then Show(s, ToNumber(s.current) - 1) else s
  }

  /** The next-photo button, and the right arrow while the lightbox is visible. */
  function Next(s: Viewer): (r: Viewer)
    requires Inv(s)
    ensures Inv(r)
    ensures r.photos == s.photos && r.album == s.album && r.preloaded == s.preloaded
    ensures ToNumber(s.current) < |s.photos| - 1 ==>
      r.current == Some(s.current.value + 1) && r.open
    ensures ToNumber(s.current) >= |s.photos| - 1 ==> r == s
  {
    if ToNumber(s.current) < |s.photos| - 1 then Show(s, ToNumber(s.current) + 1) else s
  }

  /** The close button and a click on the backdrop hide the lightbox; nothing else changes. */
  function Close(s: Viewer): (r: Viewer)
    ensures !r.open
    ensures r.(open := s.open) == s
  {
    s.(open := false)
  }

  /** `handleLightboxKey`: keys act only while the lightbox is visible. */
  function HandleKey(s: Viewer, key: Key): (r: Viewer)
    requires Inv(s)
    ensures Inv(r)
    ensures !s.open ==> r == s
    ensures s.open && key == Escape ==> r == Close(s)
    ensures s.open && key == ArrowLeft ==> r == Prev(s)
    ensures s.open && key == ArrowRight ==> r == Next(s)
    ensures key == OtherKey ==> r == s
  {
    if !s.open then s
    else
      match key
      case ArrowLeft => Prev(s)
      case ArrowRight => Next(s)
      case Escape => Close(s)
      case OtherKey => s
  }

  /** `prevBtn.disabled = currentPhotoIdx === 0`. With photos, the button is
      disabled exactly when pressing it would change nothing; before any album
      is opened the `null` index enables it. */
  function PrevDisabled(s: Viewer): (disabled: bool)
    ensures s.current == None ==> !disabled
    ensures Inv(s) && |s.photos| > 0 ==> (disabled <==> Prev(s) == s)
  {
    s.current == Some(0)
  }

  /** `nextBtn.disabled = currentPhotoIdx === currentPhotos.length - 1`. With
      photos, the button is disabled exactly when pressing it would change
      nothing; with no photos it is never disabled. */
  function NextDisabled(s: Viewer): (disabled: bool)
    ensures Inv(s) && s.photos == [] ==> !disabled
    ensures Inv(s) && |s.photos| > 0 ==> (disabled <==> Next(s) == s)
  {
    s.current == Some(|s.photos| - 1)
  }

  /** The thumbnail strip: one thumbnail per photo, flagged when it is selected. */
  function Thumbs(s: Viewer): (r: seq<bool>)
    ensures |r| == |s.photos|
  {
    seq(|s.photos|, j requires 0 <= j < |s.photos| => s.current == Some(j))
  }

  /** A click on thumbnail `k`, which does nothing when `k` is the shown photo. */
  function ThumbClick(s: Viewer, k: int): (r: Viewer)
    requires Inv(s) && 0 <= k < |s.photos|
    ensures Inv(r)
    ensures r.photos == s.photos && r.album == s.album && r.preloaded == s.preloaded
    ensures s.current == Some(k) ==> r == s
    ensures r.current == Some(k) && Thumbs(r)[k]
    ensures s.current != Some(k) ==> r.open
  {
    if s.current != Some(k) then Show(s, k) else s
  }

  function CountTrue(bs: seq<bool>): nat
    decreases |bs|
  {
    if bs == [] then 0 else (if bs[0] then 1 else 0) + CountTrue(bs[1..])
  }

  lemma {:induction false} CountNone(bs: seq<bool>)
    requires forall j :: 0 <= j < |bs| ==> !bs[j]
    ensures CountTrue(bs) == 0
    decreases |bs|
  {
    if bs != [] {
      CountNone(bs[1..]);
    }
  }

  lemma {:induction false} CountSingle(bs: seq<bool>, k: int)
    requires 0 <= k < |bs|
    requires forall j :: 0 <= j < |bs| ==> (bs[j] <==> j == k)
    ensures CountTrue(bs) == 1
    decreases |bs|
  {
    if k == 0 {
      CountNone(bs[1..]);
    } else {
      CountSingle(bs[1..], k - 1);
    }
  }

  /** In any reachable state with photos, exactly one thumbnail is selected:
      the one at the current index. */
  lemma ExactlyOneSelected(s: Viewer)
    requires Inv(s) && |s.photos| > 0
    ensures s.current.Some? && 0 <= s.current.value < |s.photos|
    ensures Thumbs(s)[s.current.value]
    ensures CountTrue(Thumbs(s)) == 1
  {
    CountSingle(Thumbs(s), s.current.value);
  }

  /** Next then previous returns to the same state, and so does previous then next. */
  lemma NextPrevRoundTrip(s: Viewer)
    requires Inv(s) && s.open && |s.photos| > 0
    ensures !NextDisabled(s) ==> Prev(Next(s)) == s
    ensures !PrevDisabled(s) ==> Next(Prev(s)) == s
  {
  }

  /** `k` presses of next. */
  function NextTimes(s: Viewer, k: nat): (r: Viewer)
    requires Inv(s)
    ensures Inv(r)
    decreases k
  {
    if k == 0 then s else NextTimes(Next(s), k - 1)
  }

  /** Presses of next walk the index forward one at a time and stop at the last photo. */
  lemma {:induction false} NextTimesStopsAtEnd(s: Viewer, k: nat)
    requires Inv(s) && s.open && |s.photos| > 0
    ensures s.current.Some?
    ensures var i := s.current.value;
      var r := NextTimes(s, k);
      && r.open && r.photos == s.photos
      && r.current == Some(if i + k < |s.photos| - 1 then i + k else |s.photos| - 1)
    decreases k
  {
    if k > 0 {
      NextTimesStopsAtEnd(Next(s), k - 1);
    }
  }

  /** Opening a three-photo album and pressing next three or four times ends
      on the last photo, with the next control disabled. */
  lemma ThreePhotoWalk(s: Viewer, folder: string, records: seq<Entry>)
    requires |records| == 3
    ensures var start := OpenAlbum(s, 0, AlbumLoaded(folder, records));
      && NextTimes(start, 3).current == Some(2)
      && NextDisabled(NextTimes(start, 3))
      && NextTimes(start, 4).current == Some(2)
  {
    var start := OpenAlbum(s, 0, AlbumLoaded(folder, records));
    NextTimesStopsAtEnd(start, 3);
    NextTimesStopsAtEnd(start, 4);
  }

  /** A loaded album's photos and index do not depend on what was open before. */
  lemma OpenAlbumForgetsPrevious(s1: Viewer, s2: Viewer, albumIdx: nat, folder: string, records: seq<Entry>)
    requires s1.preloaded == s2.preloaded
    requires |records| > 0 || s1.open == s2.open
    ensures OpenAlbum(s1, albumIdx, AlbumLoaded(folder, records))
         == OpenAlbum(s2, albumIdx, AlbumLoaded(folder, records))
  {
  }
}
