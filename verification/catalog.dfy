/** The viewer's catalog loader: every raw manifest record becomes one photo
    descriptor with a resolved source, a display title and six display strings. */
module Catalog {
  import opened Wrappers
  import opened Strings
  import opened Manifest

  /** A photo descriptor as the lightbox consumes it. Every field is a string. */
  datatype Photo = Photo(
    src: string,
    desc: string,
    title: string,
    camera: string,
    lens: string,
    focal: string,
    aperture: string,
    shutter: string,
    iso: string)

  const AlbumsRoot: string := "assets/albums/"

  /** `assets/albums/${folder}/${file}` */
  function AlbumPath(folder: string, file: string): string {
    AlbumsRoot + folder + "/" + file
  }

  /** `photo[field]` on a descriptor. */
  function PhotoField(p: Photo, f: Field): string {
    match f
    case Camera => p.camera
    case Lens => p.lens
    case Focal => p.focal
    case Aperture => p.aperture
    case Shutter => p.shutter
    case Iso => p.iso
  }

  /** The text the lightbox puts in the EXIF slot for `f`: `photo[field] || ''`. */
  function SlotText(p: Photo, f: Field): string {
    Or(Some(PhotoField(p, f)), "")
  }

  /** Maps one raw manifest record of the album stored in `folder` to its descriptor. */
  function Normalize(folder: string, e: Entry): (p: Photo)
    ensures StartsWith(e.file, "http") ==> p.src == e.file
    ensures !StartsWith(e.file, "http") ==> p.src == AlbumPath(folder, e.file)
    ensures Truthy(e.title) ==> p.title == e.title.value
    ensures !Truthy(e.title) ==> |p.title| <= |e.file| && p.title == e.file[..|p.title|]
    ensures forall f :: PhotoField(p, f) == Or(Get(e, f), "")
  {
    Photo(
      if StartsWith(e.file, "http") then e.file else AlbumPath(folder, e.file),
      AlbumPath(folder, ReplaceJpg(e.file, ".txt")),
      Or(e.title, StripJpg(e.file)),
      Or(e.camera, ""),
      Or(e.lens, ""),
      Or(e.focal, ""),
      Or(e.aperture, ""),
      Or(e.shutter, ""),
      Or(e.iso, ""))
  }

  /** `list.map(...)` over a whole manifest: one descriptor per record, in order. */
  function NormalizeAll(folder: string, records: seq<Entry>): (ps: seq<Photo>)
    ensures |ps| == |records|
    ensures forall i :: 0 <= i < |records| ==> ps[i] == Normalize(folder, records[i])
  {
    seq(|records|, i requires 0 <= i < |records| => Normalize(folder, records[i]))
  }

  /** An untitled record is titled by its file name: with one trailing `.jpg`
      (any case) removed, and unchanged for every other extension. */
  lemma DefaultTitle(folder: string, e: Entry)
    requires !Truthy(e.title)
    ensures EndsWithIgnoreCase(e.file, ".jpg") ==>
      Normalize(folder, e).title + e.file[|e.file| - 4..] == e.file
    ensures !EndsWithIgnoreCase(e.file, ".jpg") ==> Normalize(folder, e).title == e.file
  {
  }

  /** The displayed EXIF text of a loaded photo is the record's own value when
      it is non-empty and the empty string otherwise: an absent field is never
      shown as a marker. */
  lemma SlotTextFollowsRecord(folder: string, e: Entry, f: Field)
    ensures SlotText(Normalize(folder, e), f) == Or(Get(e, f), "")
    ensures Get(e, f) == None ==> SlotText(Normalize(folder, e), f) == ""
  {
  }

  /** A relative file resolves inside its album's folder, from which the file
      name can be read back. */
  lemma SrcLocatesFile(folder: string, e: Entry)
    requires !StartsWith(e.file, "http")
    ensures var src := Normalize(folder, e).src;
      var prefix := AlbumPath(folder, "");
      StartsWith(src, prefix) && src[|prefix|..] == e.file
  {
    var src := Normalize(folder, e).src;
    var prefix := AlbumPath(folder, "");
    assert src == prefix + e.file;
  }

  /** The loader's worked example: an untitled `a.jpg` is titled "a", and an
      explicit title is kept. */
  lemma LoaderExample()
    ensures var ps := NormalizeAll("album1", [
        Entry("a.jpg", None, None, None, None, None, None, None),
        Entry("b.jpg", Some("Sunset"), None, None, None, None, None, None)]);
      && |ps| == 2
      && ps[0].src == "assets/albums/album1/a.jpg" && ps[0].title == "a"
      && ps[1].src == "assets/albums/album1/b.jpg" && ps[1].title == "Sunset"
      && ps[0].camera == ""
  {
    LowerJpg();
    StripJpgRoundTrip("a", ".jpg");
    assert "a" + ".jpg" == "a.jpg";
    assert "a.jpg"[..4][0] != "http"[0];
    assert "b.jpg"[..4][0] != "http"[0];
    var a := Normalize("album1", Entry("a.jpg", None, None, None, None, None, None, None));
    assert a.title == "a";
    assert a.src == "assets/albums/album1/a.jpg";
  }
}
