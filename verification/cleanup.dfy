/** The stale-entry cleanup script: entries whose file no longer exists in the
    album directory are dropped from the manifest. */
module Cleanup {
  import opened Wrappers
  import opened Sequences
  import opened Manifest

  /** `manifest.filter(entry => fs.existsSync(...))`, where `existing` is the set
      of file names present in the album directory. */
  function Keep(manifest: seq<Entry>, existing: set<string>): (r: seq<Entry>)
    ensures IsSubsequence(r, manifest)
    ensures forall e :: e in r ==> e.file in existing
    ensures forall e: Entry :: e.file in existing ==> multiset(r)[e] == multiset(manifest)[e]
    decreases |manifest|
  {
    if manifest == [] then []
    else
      var rest := Keep(manifest[1..], existing);
      assert manifest == [manifest[0]] + manifest[1..];
      if manifest[0].file in existing then [manifest[0]] + rest else rest
  }

  /** The whole script for one album: a missing manifest, or one that cannot be
      read or parsed, leads to no write. */
  function Run(load: Load, existing: set<string>): (written: Option<seq<Entry>>)
    ensures !load.Loaded? <==> written == None
    ensures load.Loaded? ==> written == Some(Keep(load.entries, existing))
  {
    match load
    case Loaded(entries) => Some(Keep(entries, existing))
    case _ => None
  }

  /** A manifest whose files all exist is left exactly as it is. */
  lemma {:induction false} KeepAllPresent(manifest: seq<Entry>, existing: set<string>)
    requires forall i :: 0 <= i < |manifest| ==> manifest[i].file in existing
    ensures Keep(manifest, existing) == manifest
    decreases |manifest|
  {
    if manifest != [] {
      KeepAllPresent(manifest[1..], existing);
    }
  }

  /** Cleaning a cleaned manifest against the same files changes nothing. */
  lemma KeepIdempotent(manifest: seq<Entry>, existing: set<string>)
    ensures Keep(Keep(manifest, existing), existing) == Keep(manifest, existing)
  {
    var once := Keep(manifest, existing);
    forall i | 0 <= i < |once|
      ensures once[i].file in existing
    {
      assert once[i] in once;
    }
    KeepAllPresent(once, existing);
  }

  /** The cleaned manifest is no longer than the original. */
  lemma KeepShrinks(manifest: seq<Entry>, existing: set<string>)
    ensures |Keep(manifest, existing)| <= |manifest|
  {
    SubsequenceBounds(Keep(manifest, existing), manifest);
  }
}
