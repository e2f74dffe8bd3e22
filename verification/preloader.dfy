/** The image preloader: the session keeps the set of sources already
    requested, and each album opening requests only the new ones. */
module Preloader {
  import opened Sequences
  import opened Catalog

  /** The sources of an album's photos, in album order. */
  function Srcs(photos: seq<Photo>): (r: seq<string>)
    ensures |r| == |photos|
    ensures forall i :: 0 <= i < |photos| ==> r[i] == photos[i].src
  {
    seq(|photos|, i requires 0 <= i < |photos| => photos[i].src)
  }

  /** The preloaded set after a call, and the image requests the call issued, in order. */
  datatype Preloaded = Preloaded(cache: set<string>, requests: seq<string>)

  /** Walks `srcs` in order, requesting each source not yet in `cache` and
      adding it, so a source repeated within the list is requested once. */
  function PreloadSrcs(cache: set<string>, srcs: seq<string>): (r: Preloaded)
    ensures r.cache == cache + set x | x in srcs
    ensures forall x :: x in r.requests <==> x in srcs && x !in cache
    ensures Distinct(r.requests)
    ensures IsSubsequence(r.requests, srcs)
    decreases |srcs|
  {
    if srcs == [] then Preloaded(cache, [])
    else if srcs[0] in cache then PreloadSrcs(cache, srcs[1..])
    else
      var rest := PreloadSrcs(cache + {srcs[0]}, srcs[1..]);
      Preloaded(rest.cache, [srcs[0]] + rest.requests)
  }

  /** `preloadImages(photos)` against the session's set `cache`. */
  function Preload(cache: set<string>, photos: seq<Photo>): Preloaded {
    PreloadSrcs(cache, Srcs(photos))
  }

  /** The preloaded set never shrinks and ends up holding every photo's source. */
  lemma PreloadCoversAlbum(cache: set<string>, photos: seq<Photo>)
    ensures cache <= Preload(cache, photos).cache
    ensures forall i :: 0 <= i < |photos| ==> photos[i].src in Preload(cache, photos).cache
  {
    var srcs := Srcs(photos);
    forall i | 0 <= i < |photos|
      ensures photos[i].src in Preload(cache, photos).cache
    {
      assert srcs[i] in srcs;
    }
  }

  /** When every source is already preloaded, no request goes out. */
  lemma {:induction false} NothingNewNothingRequested(cache: set<string>, srcs: seq<string>)
    requires forall i :: 0 <= i < |srcs| ==> srcs[i] in cache
    ensures PreloadSrcs(cache, srcs) == Preloaded(cache, [])
    decreases |srcs|
  {
    if srcs != [] {
      NothingNewNothingRequested(cache, srcs[1..]);
    }
  }

  /** A second call with the same photos issues no request and leaves the set as it is. */
  lemma PreloadTwiceIssuesNone(cache: set<string>, photos: seq<Photo>)
    ensures var once := Preload(cache, photos);
      Preload(once.cache, photos) == Preloaded(once.cache, [])
  {
    var once := Preload(cache, photos);
    var twice := Preload(once.cache, photos);
    assert twice.cache == once.cache;
    NothingNewNothingRequested(once.cache, Srcs(photos));
  }

  /** Every request is for a source that was new, and each new source is
      requested exactly once, so no more requests go out than there are photos. */
  lemma PreloadRequestsBounded(cache: set<string>, photos: seq<Photo>)
    ensures |Preload(cache, photos).requests| <= |photos|
  {
    SubsequenceBounds(Preload(cache, photos).requests, Srcs(photos));
  }
}
