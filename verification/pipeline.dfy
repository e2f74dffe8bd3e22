/** How the maintenance scripts' outputs fit together and what the viewer
    makes of them. */
module Pipeline {
  import opened Wrappers
  import opened Strings
  import opened Manifest
  import opened Catalog
  import opened ExifBackfill
  import opened Cleanup
  import opened ManifestGen

  /** A regenerated entry is shown under the title the generator gave it, and
      with six empty EXIF slots. */
  lemma GeneratedEntryDisplay(listing: seq<string>, folder: string, e: Entry, f: Field)
    requires e in Regenerate(listing)
    ensures Normalize(folder, e).title == ParseName(e.file)
    ensures SlotText(Normalize(folder, e), f) == ""
  {
    assert e.file != "";
    ParseNameNonEmpty(e.file);
  }

  /** Every field of a freshly generated manifest is blank, so the backfill
      takes every field of a readable file from its EXIF tags. */
  lemma BackfillAfterRegenerate(listing: seq<string>, metadata: map<string, ExifTags>, i: int, f: Field)
    requires 0 <= i < |Regenerate(listing)|
    requires Regenerate(listing)[i].file in metadata
    ensures var m := Regenerate(listing);
      Get(Backfill(m, metadata)[i], f) == Some(Or(Tag(metadata[m[i].file], f), ""))
  {
    var m := Regenerate(listing);
    assert m[i] in m;
  }

  /** Cleaning a freshly generated manifest against the listing it came from
      removes nothing. */
  lemma CleanupAfterRegenerate(listing: seq<string>)
    ensures Keep(Regenerate(listing), set name | name in listing) == Regenerate(listing)
  {
    var m := Regenerate(listing);
    forall i | 0 <= i < |m|
      ensures m[i].file in set name | name in listing
    {
      assert m[i] in m;
    }
    KeepAllPresent(m, set name | name in listing);
  }

  /** The backfill never changes a file name, so cleaning before or after it
      gives the same manifest. */
  lemma {:induction false} BackfillCommutesWithCleanup(
    manifest: seq<Entry>, metadata: map<string, ExifTags>, existing: set<string>)
    ensures Keep(Backfill(manifest, metadata), existing)
         == Backfill(Keep(manifest, existing), metadata)
    decreases |manifest|
  {
    if manifest != [] {
      var filled := Backfill(manifest, metadata);
      assert filled[1..] == Backfill(manifest[1..], metadata);
      assert filled[0].file == manifest[0].file;
      BackfillCommutesWithCleanup(manifest[1..], metadata, existing);
    }
  }
}
