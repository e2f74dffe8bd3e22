/** The string work the gallery does: prefix tests, case-insensitive suffix
    tests and replacements as a regular expression with the `i` flag performs
    them, and the `name` part of Node's `path.parse`. */
module Strings {

  predicate StartsWith(s: string, prefix: string) {
    |prefix| <= |s| && s[..|prefix|] == prefix
  }

  /** Case folding of the `i` flag without `u`: only ASCII letters fold, since
      that flag refuses any fold that takes a non-ASCII character to an ASCII
      one (so 'ı' does not match 'I', nor 'ſ' match 'S'). */
  function LowerChar(c: char): char {
    if 'A' <= c <= 'Z' then (c as int + 32) as char else c
  }

  function Lower(s: string): (r: string)
    ensures |r| == |s|
  {
    seq(|s|, i requires 0 <= i < |s| => LowerChar(s[i]))
  }

  /** `/<suffix>$/i.test(s)` for a lower-case literal `suffix`. */
  predicate EndsWithIgnoreCase(s: string, suffix: string) {
    |suffix| <= |s| && Lower(s[|s| - |suffix|..]) == suffix
  }

  /** `s.replace(/\.jpg$/i, "")`: one trailing `.jpg`, in any letter case, removed. */
  function StripJpg(s: string): (r: string)
    ensures EndsWithIgnoreCase(s, ".jpg") <==> |r| == |s| - 4
    ensures !EndsWithIgnoreCase(s, ".jpg") ==> r == s
    ensures r == s[..|r|]
  {
    if EndsWithIgnoreCase(s, ".jpg") then s[..|s| - 4] else s
  }

  /** `s.replace(/\.jpg$/i, replacement)`. */
  function ReplaceJpg(s: string, replacement: string): (r: string)
    ensures EndsWithIgnoreCase(s, ".jpg") ==>
      && |r| == |s| - 4 + |replacement|
      && r[..|s| - 4] == s[..|s| - 4]
      && r[|s| - 4..] == replacement
    ensures !EndsWithIgnoreCase(s, ".jpg") ==> r == s
  {
    if EndsWithIgnoreCase(s, ".jpg") then s[..|s| - 4] + replacement else s
  }

  /** Replacing `.jpg` by nothing is removing it: the description path and the
      default title cut the same suffix. */
  lemma ReplaceJpgByNothingStrips(s: string)
    ensures ReplaceJpg(s, "") == StripJpg(s)
  {
    if EndsWithIgnoreCase(s, ".jpg") {
      var r := ReplaceJpg(s, "");
      assert r == r[..|s| - 4] + r[|s| - 4..];
    }
  }

  /** Removing `.jpg` undoes appending it, whatever the case of its letters,
      and only one such suffix is removed. */
  lemma StripJpgRoundTrip(stem: string, ext: string)
    requires Lower(ext) == ".jpg"
    ensures StripJpg(stem + ext) == stem
  {
    var s := stem + ext;
    assert s[|s| - 4..] == ext;
    assert s[..|s| - 4] == stem;
  }

  lemma LowerJpg()
    ensures Lower(".jpg") == ".jpg"
  {
    assert Lower(".jpg")[1] == LowerChar('j');
  }

  /** Index of the last '.' of `s`, or -1 when there is none. */
  function LastDot(s: string): (r: int)
    ensures -1 <= r < |s|
    ensures r == -1 ==> '.' !in s
    ensures r >= 0 ==> s[r] == '.' && '.' !in s[r + 1..]
    decreases |s|
  {
    if s == [] then -1
    else if s[|s| - 1] == '.' then |s| - 1
    else
      var d := LastDot(s[..|s| - 1]);
      assert s[..|s| - 1] + [s[|s| - 1]] == s;
      d
  }

  /** `path.parse(base).name` for a single path segment (no '/'): the segment
      without its last extension, where a leading dot starts no extension and
      ".." is kept whole. The result is a prefix of `base`; it is shorter
      exactly when `base` has a '.' after its first character and is not "..",
      and then what it drops is a '.' followed by no other '.'. */
  function ParseName(base: string): (n: string)
    ensures |n| <= |base| && n == base[..|n|]
    ensures n != base ==>
      && 0 < |n| < |base|
      && base[|n|] == '.'
      && '.' !in base[|n| + 1..]
    ensures n == base <==> base == ".." || |base| == 0 || '.' !in base[1..]
  {
    var d := LastDot(base);
    if base == ".." || d <= 0 then base else base[..d]
  }

  /** A non-empty stem followed by an extension (a '.' and no further '.')
      parses back to the stem. */
  lemma ParseNameDropsExtension(stem: string, ext: string)
    requires stem != "" && |ext| > 0 && ext[0] == '.' && '.' !in ext[1..]
    requires stem + ext != ".."
    ensures ParseName(stem + ext) == stem
  {
    var base := stem + ext;
    var n := ParseName(base);
    assert base[|stem|] == '.';
    assert base[|stem|] in base[1..];
    assert base[..|stem|] == stem;
  }

  /** A name whose only '.' is its first character, such as ".jpg", is a
      dotfile: `ParseName` returns it whole. */
  lemma ParseNameKeepsDotfile(base: string)
    requires |base| > 0 && base[0] == '.' && '.' !in base[1..]
    ensures ParseName(base) == base
  {
  }

  /** A non-empty segment has a non-empty name. */
  lemma ParseNameNonEmpty(base: string)
    requires base != ""
    ensures ParseName(base) != ""
  {
  }
}
