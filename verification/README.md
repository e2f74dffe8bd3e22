# portfoolio gallery — a Dafny model

This project models the logic of the portfoolio photography site as pure functions over
immutable records.

- **Catalog loader** (`fetchAlbumPhotos`). Each raw manifest record becomes a photo
  descriptor:
  - the source is resolved against the album folder unless it starts with `http`;
  - the title defaults to the file name with one trailing `.jpg` removed, in any letter case;
  - the six EXIF display fields default to `""`.
- **Album viewer.** This is the lightbox state machine. Its state holds the open album, its
  photos, the current index, whether the lightbox is visible, and the preloaded set. The
  transitions are open album, previous, next, thumbnail click, close and key handling. The
  control enablement and the selected thumbnail are functions of that state.
- **Preloader** (`preloadImages`). Only sources not yet in the session's set are requested.
- **EXIF backfill script.** Each blank field of an entry takes the matching EXIF tag when the
  file's metadata can be read. Filled fields are kept.
- **Cleanup script.** Entries whose file no longer exists are filtered out.
- **Manifest regeneration script.** A directory listing becomes a fresh manifest: only image
  names, without `cover.jpg` and `cover.png`, each titled by its name without the last extension.

Files and modules:

| file | module | role |
|---|---|---|
| wrappers.dfy | `Wrappers` | `Option`, JavaScript truthiness of an optional string, `x \|\| d` as `Or` |
| sequences.dfy | `Sequences` | `IsSubsequence`, `Distinct` |
| strings.dfy | `Strings` | prefix test, case-insensitive suffix, `.jpg` removal, `path.parse(..).name` |
| manifest.dfy | `Manifest` | the manifest `Entry`, the six `Field`s, the outcome of loading a manifest |
| catalog.dfy | `Catalog` | `Photo` and the record normalisation |
| preloader.dfy | `Preloader` | the preloaded set and the requests issued |
| lightbox.dfy | `Lightbox` | the viewer state machine |
| exif_backfill.dfy | `ExifBackfill` | the blank-field merge |
| cleanup.dfy | `Cleanup` | the stale-entry filter |
| manifest_gen.dfy | `ManifestGen` | listing → manifest |
| pipeline.dfy | `Pipeline` | how the scripts' outputs combine and how the viewer shows them |

Inputs that the site's scripts obtain through I/O are parameters here:
- a fetched or parsed manifest is a `seq<Entry>`, or a `Load` that says why it could not be had;
- a directory listing is an `Option<seq<string>>`;
- the "file exists" test is a `set<string>` of present names;
- the metadata reader is a `map<string, ExifTags>`, and a file missing from the map is a read
  that failed.

A script's `Run` returns the manifest it would write, or `None` when it writes nothing.

Three behaviours of the code that the model keeps as written:
- **Opening an empty album.** The code sets `currentPhotoIdx = 0` (portfoolio/script.js:159),
  then throws when it reads photo 0's source at line 194. That happens before line 216 un-hides
  the lightbox. `OpenAlbum` therefore leaves index 0 over no photos, with the visibility
  unchanged, and `Inv` admits that state.
- **A `null` index.** In relational comparisons `null` becomes 0, which `ToNumber` models.
  Under `===` it equals nothing, so `PrevDisabled` is false before any album is opened.
- **Preloading.** The code also deduplicates within one list (portfoolio/script.js:131-136).
  Each new source is added to the set before the next one is looked at.

## Model

| member | source | states |
|---|---|---|
| Strings.StripJpg | portfoolio/script.js:147 | the result is a prefix of the name; it is 4 characters shorter exactly when the name ends in `.jpg` in any letter case, and is the name itself otherwise |
| Strings.StripJpgRoundTrip | portfoolio/script.js:147 | removing the suffix undoes appending any casing of `.jpg`, and only one such suffix is removed |
| Strings.ReplaceJpg | portfoolio/script.js:146 | when the name ends in `.jpg` in any case, the result keeps everything before those 4 characters and puts the given text after it; any other name is unchanged |
| Strings.ReplaceJpgByNothingStrips | portfoolio/script.js:146-147 | replacing the suffix by "" gives the default title's stripped name, so the description path and the title cut the same suffix |
| Strings.LastDot | portfoolio/scripts/updateManifest.js:32 | the result is -1 exactly when the name has no '.', and otherwise is a '.' with no '.' after it |
| Strings.ParseName | portfoolio/scripts/updateManifest.js:32 | the name is a prefix of the file name; it is shorter exactly when the file name has a '.' after its first character and is not ".."; what it then drops is a '.' followed by no other '.' |
| Strings.ParseNameDropsExtension | portfoolio/scripts/updateManifest.js:32 | a non-empty stem followed by '.' and a part with no further '.' parses back to exactly the stem |
| Strings.ParseNameKeepsDotfile | portfoolio/scripts/updateManifest.js:32 | a name whose only '.' is its leading one (".png") is kept whole as its own title |
| Strings.ParseNameNonEmpty | portfoolio/scripts/updateManifest.js:32 | a non-empty file name never yields an empty title |
| Catalog.Normalize | portfoolio/script.js:144-154 | src is the file itself when it starts with "http" and the album path otherwise; a non-empty title is kept, else the title is a prefix of the file; each EXIF field is the record's value when truthy, else "" |
| Catalog.NormalizeAll | portfoolio/script.js:143-155 | one descriptor per record: same length, and position i holds the normalised record i |
| Catalog.DefaultTitle | portfoolio/script.js:147 | an untitled record's title is the file with its trailing `.jpg` (any case) cut off, or the whole file when it has another extension |
| Catalog.SlotTextFollowsRecord | portfoolio/script.js:197-201 | the text shown in an EXIF slot is the record's value when non-empty and "" otherwise, so an absent field shows "" |
| Catalog.SrcLocatesFile | portfoolio/script.js:145 | a relative file's source starts with `assets/albums/<folder>/`, and the file name is what follows |
| Catalog.LoaderExample | portfoolio/script.js:143-155 | records `a.jpg` (untitled) and `b.jpg` titled "Sunset" load as titles "a" and "Sunset" with sources under the album folder |
| Preloader.PreloadSrcs | portfoolio/script.js:130-138 | the set becomes old set ∪ all sources; a source is requested iff it is listed and was not in the set; requests are distinct and in list order |
| Preloader.NothingNewNothingRequested | portfoolio/script.js:130-138 | when every source is already preloaded, no request is issued and the set is unchanged |
| Preloader.PreloadCoversAlbum | portfoolio/script.js:130-138 | the set never shrinks and afterwards holds every photo's source |
| Preloader.PreloadTwiceIssuesNone | portfoolio/script.js:130-138 | a second call with the same photos issues no request and leaves the set as it is |
| Preloader.PreloadRequestsBounded | portfoolio/script.js:130-138 | no more requests are issued than there are photos |
| Lightbox.InitialSatisfiesInv | portfoolio/script.js:111-114 | the page starts with no index, no photos and the lightbox hidden, a state of the invariant |
| Lightbox.Show | portfoolio/script.js:158-222 | showing a live index sets it as current and makes the lightbox visible; the album, photos and preloaded set are untouched |
| Lightbox.OpenAlbum | portfoolio/script.js:116-128 | a failed root fetch changes nothing, and a failed album fetch only records the album; a loaded album replaces the photos, preloads them and sets index 0; the lightbox opens iff the album has photos; the state invariant is kept |
| Lightbox.OpenAlbumForgetsPrevious | portfoolio/script.js:123-125 | the state after loading an album does not depend on the photos or index that were there before |
| Lightbox.Prev | portfoolio/script.js:271-275 | when the index is above 0, it moves back by exactly one and the lightbox is visible; otherwise the state is unchanged; the state invariant is kept |
| Lightbox.Next | portfoolio/script.js:277-281 | when the index is below the last, it moves forward by exactly one; otherwise the state is unchanged; the state invariant is kept |
| Lightbox.Close | portfoolio/script.js:283-286 | the lightbox is hidden and nothing else changes |
| Lightbox.HandleKey | portfoolio/script.js:288-299 | while hidden every key is ignored; while visible the arrows act as previous and next and Escape closes; other keys do nothing |
| Lightbox.ThumbClick | portfoolio/script.js:233-237 | afterwards the clicked photo is current and its thumbnail selected; a click on the already-selected thumbnail changes nothing |
| Lightbox.ExactlyOneSelected | portfoolio/script.js:229-232 | with photos, exactly one thumbnail is marked selected, the one at the current index |
| Lightbox.PrevDisabled | portfoolio/script.js:255 | with photos, previous is disabled iff pressing it changes nothing (index 0); with a `null` index it is enabled |
| Lightbox.NextDisabled | portfoolio/script.js:256 | with photos, next is disabled iff pressing it changes nothing (last index); with no photos it is enabled |
| Lightbox.NextPrevRoundTrip | portfoolio/script.js:271-281 | in a visible lightbox, next then previous and previous then next return to the same state when the first press is enabled |
| Lightbox.NextTimesStopsAtEnd | portfoolio/script.js:277-281 | k presses of next from index i reach min(i + k, last index) |
| Lightbox.ThreePhotoWalk | portfoolio/script.js:277-281 | after opening a three-photo album, three or four presses of next end at index 2 with next disabled |
| ExifBackfill.Merge | portfoolio/scripts/extractExif.js:49-54 | file and title are kept; a non-empty field is never overwritten; a blank field takes its paired tag (Make, LensModel, FocalLength, FNumber, ExposureTime, ISO) or "" |
| ExifBackfill.Backfill | portfoolio/scripts/extractExif.js:39-59 | length, order, file names and titles are kept; an entry whose read failed is unchanged; filled fields are kept and blank ones take the tag |
| ExifBackfill.Run | portfoolio/scripts/extractExif.js:24-36 | nothing is written iff the manifest could not be read or parsed; otherwise the backfilled manifest is written |
| ExifBackfill.MergeIdempotent | portfoolio/scripts/extractExif.js:49-54 | merging the same tags twice gives what merging once gives |
| ExifBackfill.BackfillIdempotent | portfoolio/scripts/extractExif.js:39-59 | running the backfill twice with the same metadata gives what running it once gives |
| Cleanup.Keep | portfoolio/scripts/cleanup.js:38-46 | the result is an order-preserving subsequence of the manifest; every kept entry's file exists; every entry whose file exists is kept as often as it occurs, duplicates included |
| Cleanup.Run | portfoolio/scripts/cleanup.js:22-34 | nothing is written iff the manifest is missing, unreadable or unparsable; otherwise the filtered manifest is written |
| Cleanup.KeepAllPresent | portfoolio/scripts/cleanup.js:38-46 | a manifest whose files all exist is returned unchanged |
| Cleanup.KeepIdempotent | portfoolio/scripts/cleanup.js:38-46 | cleaning a cleaned manifest against the same files returns it unchanged |
| Cleanup.KeepShrinks | portfoolio/scripts/cleanup.js:38-46 | the cleaned manifest is no longer than the original |
| ManifestGen.Survivors | portfoolio/scripts/updateManifest.js:28-29 | the result is a subsequence of the listing; a name is in it iff it is listed, ends in .jpg/.jpeg/.png in any case, and is not exactly cover.jpg or cover.png |
| ManifestGen.Generate | portfoolio/scripts/updateManifest.js:30-39 | the entry's file is the name, its title the name without its last extension, and all six EXIF fields are "" |
| ManifestGen.Regenerate | portfoolio/scripts/updateManifest.js:27-39 | no more entries than listed names; every entry comes from a surviving listed name and is generated from it; every surviving name has its entry; when the listing repeats no name, as a directory listing never does, no two entries share a file name |
| ManifestGen.RegenerateFollowsListing | portfoolio/scripts/updateManifest.js:27-39 | the entries' file names, in order, are exactly the surviving names in listing order |
| ManifestGen.Run | portfoolio/scripts/updateManifest.js:21-42 | nothing is written iff the directory cannot be read; otherwise the manifest built from the listing alone is written |
| ManifestGen.CoverJpgUpperSurvives | portfoolio/scripts/updateManifest.js:29 | "Cover.JPG" is kept: the cover exclusion is case-sensitive while the extension test is not |
| ManifestGen.CoverCaseSensitive | portfoolio/scripts/updateManifest.js:28-29 | from cover.jpg, Cover.JPG, notes.txt, cover.png and .png, exactly Cover.JPG and .png survive, in that order |
| ManifestGen.TitleExamples | portfoolio/scripts/updateManifest.js:32 | "Cover.JPG" is titled "Cover", and the dotfile ".png" is titled ".png" |
| Pipeline.GeneratedEntryDisplay | portfoolio/scripts/updateManifest.js:30-39 | a regenerated entry is displayed under the title the generator gave it, with every EXIF slot empty |
| Pipeline.BackfillAfterRegenerate | portfoolio/scripts/extractExif.js:49-54 | in a freshly generated manifest every field is blank, so every field of a readable file comes from its EXIF tag |
| Pipeline.CleanupAfterRegenerate | portfoolio/scripts/cleanup.js:38-46 | cleaning a freshly generated manifest against its own listing removes nothing |
| Pipeline.BackfillCommutesWithCleanup | portfoolio/scripts/cleanup.js:38-46 | since the backfill keeps every file name, cleaning before or after it gives the same manifest |

## Left out

- DOM work is left out because it is presentation only. This covers element caching, `innerHTML` and fragments, `scrollIntoView`, the class toggling beyond the visible flag and the selected flag, and the page fade-in. The model assumes every element `getElement` looks up exists, so the early return at portfoolio/script.js:165 is not modelled.
- `fetch`, JSON parsing and serialising, and every `fs` read, write and rename are left out. Their results are inputs and their outputs are return values. A failed write after the manifest is computed is not modelled.
- The 500 ms fade is taken as immediate. In the code, the guard is checked at press time but the index is read again when the timer fires. Two quick presses can therefore both pass the guard and step past an end. This asynchronous race is not modelled, and neither is a stale album fetch finishing after a newer one.
- The lightbox size fit (portfoolio/script.js:173-184), the parallax offsets (portfoolio/script.js:30-32) and the background pan are left out: they are floating-point viewport arithmetic.
- `setRandomBackground`, `renderAlbums` and `renderPhotographer` are left out. They depend on randomness and fetches, or only render fixed configuration (the album lists, `equipment`, `bio`).
- portfoolio/scripts/resizePhotos.js is left out. It wraps the `sharp` library, and its extension filter is the one `ManifestGen.IsImageName` models.
- The metadata reader is left out; its result is an input. The reader returns `FNumber` and `ISO` as numbers, which the model treats as their text. A numeric 0 would be falsy for `||`, and the model does not represent it.
- Manifest contents outside the `Entry` shape are left out: a manifest that parses to something other than an array, a numeric title, and an entry without a string `file`.
- `albums[albumIdx]` is assumed to exist, because album tiles are built from the same root manifest.
- Thumbnails left over in the page after an empty album fails to open are not modelled, because the model has no DOM.
- `Strings.ParseName` models `path.parse(name).name` for a single path segment. Directory entry names contain no '/', so this is enough here.
- The cleanup's `fs.existsSync(path.join(dir, entry.file))` is modelled as membership of `entry.file` in the set of present names. Path normalisation of names such as `../x` is not modelled.
- Each script loops over a fixed album list; the model describes one album's run. In cleanup.js the loop is a synchronous `forEach` (portfoolio/scripts/cleanup.js:17). An exception while processing one album therefore escapes the loop and skips every later album. Two inputs throw outside any `try`: `.filter` on a manifest that parsed to a non-array (line 38), and `path.join` on an entry without a string `file` (line 39). In extractExif.js the same inputs throw inside the asynchronous read callback (portfoolio/scripts/extractExif.js:39-40), outside the per-entry `try`, and the script does not catch them. Neither case is modelled, because `Load` and `Entry` cannot represent those inputs.
- Lightbox.Thumbs: its own contract states only the length; which thumbnail is selected is stated by `Lightbox.ExactlyOneSelected` and `Lightbox.ThumbClick`.
