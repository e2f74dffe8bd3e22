/** The EXIF backfill script: for every manifest entry whose image metadata can
    be read, each blank display field takes the matching EXIF tag. */
module ExifBackfill {
  import opened Wrappers
  import opened Manifest

  /** The EXIF tags the script consults, as the metadata reader returns them. */
  datatype ExifTags = ExifTags(
    make: Option<string>,
    lensModel: Option<string>,
    focalLength: Option<string>,
    fNumber: Option<string>,
    exposureTime: Option<string>,
    iso: Option<string>)

  /** The tag each display field is filled from. */
  function Tag(t: ExifTags, f: Field): Option<string> {
    match f
    case Camera => t.make
    case Lens => t.lensModel
    case Focal => t.focalLength
    case Aperture => t.fNumber
    case Shutter => t.exposureTime
    case Iso => t.iso
  }

  /** `entry.<field> = entry.<field> || exifData.<Tag> || ''` */
  function Fill(current: Option<string>, tag: Option<string>): Option<string> {
    Some(Or(current, Or(tag, "")))
  }

  /** One entry whose metadata was read as `t`. */
  function Merge(e: Entry, t: ExifTags): (r: Entry)
    ensures r.file == e.file && r.title == e.title
    ensures forall f :: Truthy(Get(e, f)) ==> Get(r, f) == Get(e, f)
    ensures forall f :: !Truthy(Get(e, f)) ==> Get(r, f) == Some(Or(Tag(t, f), ""))
  {
    e.(camera := Fill(e.camera, t.make),
       lens := Fill(e.lens, t.lensModel),
       focal := Fill(e.focal, t.focalLength),
       aperture := Fill(e.aperture, t.fNumber),
       shutter := Fill(e.shutter, t.exposureTime),
       iso := Fill(e.iso, t.iso))
  }

  /** The loop over the manifest. `metadata` holds the tags of every file whose
      read succeeded; a file missing from it failed, and its entry is left as it
      was while the loop moves on. */
  function Backfill(manifest: seq<Entry>, metadata: map<string, ExifTags>): (r: seq<Entry>)
    ensures |r| == |manifest|
    ensures forall i :: 0 <= i < |manifest| ==>
      r[i].file == manifest[i].file && r[i].title == manifest[i].title
    ensures forall i :: 0 <= i < |manifest| && manifest[i].file !in metadata ==> r[i] == manifest[i]
    ensures forall i, f :: 0 <= i < |manifest| && Truthy(Get(manifest[i], f)) ==>
      Get(r[i], f) == Get(manifest[i], f)
    ensures forall i, f :: 0 <= i < |manifest| && manifest[i].file in metadata && !Truthy(Get(manifest[i], f)) ==>
      Get(r[i], f) == Some(Or(Tag(metadata[manifest[i].file], f), ""))
    decreases |manifest|
  {
    if manifest == [] then []
    else
      var e := manifest[0];
      var e' := if e.file in metadata then Merge(e, metadata[e.file]) else e;
      [e'] + Backfill(manifest[1..], metadata)
  }

  /** The whole script for one album: nothing is written when the manifest
      cannot be read or parsed. */
  function Run(load: Load, metadata: map<string, ExifTags>): (written: Option<seq<Entry>>)
    ensures !load.Loaded? <==> written == None
    ensures load.Loaded? ==> written == Some(Backfill(load.entries, metadata))
  {
    match load
    case Loaded(entries) => Some(Backfill(entries, metadata))
    case _ => None
  }

  lemma MergeIdempotent(e: Entry, t: ExifTags)
    ensures Merge(Merge(e, t), t) == Merge(e, t)
  {
  }

  /** Running the backfill again with the same metadata changes nothing. */
  lemma {:induction false} BackfillIdempotent(manifest: seq<Entry>, metadata: map<string, ExifTags>)
    ensures Backfill(Backfill(manifest, metadata), metadata) == Backfill(manifest, metadata)
    decreases |manifest|
  {
    if manifest != [] {
      var once := Backfill(manifest, metadata);
      var e := manifest[0];
      if e.file in metadata {
        MergeIdempotent(e, metadata[e.file]);
      }
      BackfillIdempotent(manifest[1..], metadata);
      assert once[1..] == Backfill(manifest[1..], metadata);
    }
  }
}
