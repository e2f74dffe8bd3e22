/** The manifest regeneration script: the album directory listing becomes a
    fresh manifest with one entry per photo file. The previous manifest is
    never read, so it is not an input here. */
module ManifestGen {
  import opened Wrappers
  import opened Sequences
  import opened Strings
  import opened Manifest

  /** `/\.(jpg|jpeg|png)$/i.test(name)` */
  predicate IsImageName(name: string) {
    EndsWithIgnoreCase(name, ".jpg") || EndsWithIgnoreCase(name, ".jpeg") || EndsWithIgnoreCase(name, ".png")
  }

  /** `name !== 'cover.jpg' && name !== 'cover.png'` fails: a case-sensitive comparison. */
  predicate IsCover(name: string) {
    name == "cover.jpg" || name == "cover.png"
  }

  predicate Survives(name: string) {
    IsImageName(name) && !IsCover(name)
  }

  /** A property read off a string primitive, as `file.camera` is. Neither
      argument matters for the six keys read here (camera, lens, focal,
      aperture, shutter, iso): a string has none of them, so each read is
      `undefined`. Other keys, such as `length`, are never read. */
  function StringProperty(s: string, key: string): Option<string> {
    None
  }

  /** The entry built for one surviving name. */
  function Generate(name: string): (e: Entry)
    ensures e.file == name
    ensures e.title == Some(ParseName(name))
    ensures forall f :: Get(e, f) == Some("")
  {
    Entry(
      name,
      Some(ParseName(name)),
      Some(Or(StringProperty(name, "camera"), "")),
      Some(Or(StringProperty(name, "lens"), "")),
      Some(Or(StringProperty(name, "focal"), "")),
      Some(Or(StringProperty(name, "aperture"), "")),
      Some(Or(StringProperty(name, "shutter"), "")),
      Some(Or(StringProperty(name, "iso"), "")))
  }

  /** The two `filter` calls over the listing. */
  function Survivors(listing: seq<string>): (r: seq<string>)
    ensures IsSubsequence(r, listing)
    ensures forall name :: name in r <==> name in listing && Survives(name)
    decreases |listing|
  {
    if listing == [] then []
    else
      var rest := Survivors(listing[1..]);
      assert listing == [listing[0]] + listing[1..];
      if Survives(listing[0]) then [listing[0]] + rest else rest
  }

  /** The listing's manifest: one generated entry per surviving name, in listing order. */
  function Regenerate(listing: seq<string>): (r: seq<Entry>)
    ensures |r| <= |listing|
    ensures forall e :: e in r ==> e.file in listing && Survives(e.file) && e == Generate(e.file)
    ensures forall name :: name in listing && Survives(name) ==> Generate(name) in r
    ensures Distinct(listing) ==>
      forall i, j :: 0 <= i < j < |r| ==> r[i].file != r[j].file
  {
    var names := Survivors(listing);
    SubsequenceBounds(names, listing);
    assert Distinct(listing) ==> Distinct(names) by {
      if Distinct(listing) {
        SubsequenceDistinct(names, listing);
      }
    }
    var r := seq(|names|, i requires 0 <= i < |names| => Generate(names[i]));
    assert forall name :: name in names ==> Generate(name) in r by {
      forall name | name in names
        ensures Generate(name) in r
      {
        var i :| 0 <= i < |names| && names[i] == name;
        assert r[i] == Generate(name);
      }
    }
    r
  }

  /** The script for one album: nothing is written when the directory cannot be read. */
  function Run(listing: Option<seq<string>>): (written: Option<seq<Entry>>)
    ensures listing == None <==> written == None
    ensures listing.Some? ==> written == Some(Regenerate(listing.value))
  {
    match listing
    case None => None
    case Some(names) => Some(Regenerate(names))
  }

  /** The generated file names, in order, are exactly the surviving names of the listing. */
  lemma RegenerateFollowsListing(listing: seq<string>)
    ensures |Regenerate(listing)| == |Survivors(listing)|
    ensures forall i :: 0 <= i < |Regenerate(listing)| ==>
      Regenerate(listing)[i].file == Survivors(listing)[i]
    ensures IsSubsequence(Survivors(listing), listing)
  {
  }

  lemma CoverJpgUpperSurvives()
    ensures Survives("Cover.JPG")
  {
    assert "Cover.JPG"[5..] == ".JPG";
    assert Lower(".JPG") == ".jpg" by {
      assert Lower(".JPG")[1] == LowerChar('J');
      assert Lower(".JPG")[2] == LowerChar('P');
      assert Lower(".JPG")[3] == LowerChar('G');
    }
  }

  lemma DotPngSurvives()
    ensures Survives(".png")
  {
    assert Lower(".png") == ".png" by {
      assert Lower(".png")[1] == LowerChar('p');
    }
  }

  lemma TextFileIgnored()
    ensures !Survives("notes.txt")
  {
    assert Lower("notes.txt"[5..])[3] == 't';
    assert Lower("notes.txt"[4..])[4] == 't';
  }

  /** Only the two lower-case cover names are dropped: "Cover.JPG" survives,
      and files of other types are ignored. */
  lemma CoverCaseSensitive()
    ensures Survivors(["cover.jpg", "Cover.JPG", "notes.txt", "cover.png", ".png"])
         == ["Cover.JPG", ".png"]
  {
    var listing := ["cover.jpg", "Cover.JPG", "notes.txt", "cover.png", ".png"];
    CoverJpgUpperSurvives();
    DotPngSurvives();
    TextFileIgnored();
    assert listing[4..] == [".png"];
    assert Survivors(listing[4..]) == [".png"];
    assert listing[3..] == ["cover.png", ".png"];
    assert Survivors(listing[3..]) == [".png"];
    assert listing[2..] == ["notes.txt", "cover.png", ".png"];
    assert Survivors(listing[2..]) == [".png"];
    assert listing[1..] == ["Cover.JPG", "notes.txt", "cover.png", ".png"];
    assert Survivors(listing[1..]) == ["Cover.JPG", ".png"];
  }

  /** A title drops the last extension, whatever its case, but a name that is
      only an extension is a dotfile and keeps it. */
  lemma TitleExamples()
    ensures Generate("Cover.JPG").title == Some("Cover")
    ensures Generate(".png").title == Some(".png")
  {
    assert LastDot("Cover.JPG") == 5;
    assert |"Cover.JPG"| != |".."|;
    assert "Cover.JPG"[..5] == "Cover";
    ParseNameKeepsDotfile(".png");
  }
}
