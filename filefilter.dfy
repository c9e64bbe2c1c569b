/** The extension filter of the statistics script: changes to lock files,
    images, fonts, minified assets and source maps are not counted. */
module FileFilter {
  import opened Strings

  /** `SKIP_EXTENSIONS` */
  const SkipExtensions: set<string> :=
    {"lock", "svg", "min.js", "min.css", "map", "ico", "png", "jpg", "jpeg",
     "gif", "woff", "woff2", "ttf", "eot"}

  /** The file name ends, case-sensitively, with a dot and one of the
      excluded extensions. */
  predicate Skipped(filename: string) {
    exists ext :: ext in SkipExtensions && EndsWith(filename, "." + ext)
  }

  /** `should_skip_file`: tries the extensions one by one in whatever order
      the set yields them and stops at the first match. Every order gives
      the same answer. */
  method ShouldSkipFile(filename: string) returns (skip: bool)
    ensures skip <==> Skipped(filename)
  {
    var remaining := SkipExtensions;
    while remaining != {}
      invariant remaining <= SkipExtensions
      invariant forall ext :: ext in SkipExtensions - remaining ==> !EndsWith(filename, "." + ext)
      decreases |remaining|
    {
      var ext :| ext in remaining;
      if EndsWith(filename, "." + ext) {
        return true;
      }
      remaining := remaining - {ext};
    }
    return false;
  }

  /** Names that are filtered. */
  lemma SkippedExamples()
    ensures Skipped("yarn.lock") && Skipped("assets/app.min.js") && Skipped("fonts/a.woff2")
  {
    assert EndsWith("yarn.lock", "." + "lock");
    assert EndsWith("assets/app.min.js", "." + "min.js");
    assert EndsWith("fonts/a.woff2", "." + "woff2");
  }

  /** How the excluded extensions end: only `min.js` and `min.css` end in
      `s`, and both are at least six characters long. */
  lemma SkipExtensionEnds()
    ensures forall ext :: ext in SkipExtensions ==>
      |ext| > 0 && (ext[|ext| - 1] in "kgpof2t" || (ext[|ext| - 1] == 's' && |ext| >= 6))
  {
  }

  /** A name is counted when its last character ends no excluded
      extension, or when it ends in `s` but is too short to end in
      `.min.js`. */
  lemma KeptByEnding(filename: string)
    requires |filename| > 0 && filename[|filename| - 1] !in "kgpof2t"
    requires filename[|filename| - 1] == 's' ==> |filename| < 7
    ensures !Skipped(filename)
  {
    SkipExtensionEnds();
    forall ext | ext in SkipExtensions
      ensures !EndsWith(filename, "." + ext)
    {
      if EndsWith(filename, "." + ext) {
        EndsWithLast(filename, "." + ext);
      }
    }
  }

  /** Names that are kept: plain `.js` is counted although `.min.js` is
      not, and the match is case-sensitive. */
  lemma KeptExamples()
    ensures !Skipped("app.js") && !Skipped("LOGO.PNG")
  {
    KeptByEnding("app.js");
    KeptByEnding("LOGO.PNG");
  }
}
