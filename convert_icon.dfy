/**
 * The icon script: the PNG written next to the ICO (the ICO path with its
 * final extension replaced, as `os.path.splitext` splits it on POSIX), the
 * six icon sizes, and the order of the two writes and of the messages.
 *
 * Pillow is a parameter: the message of the exception raised when opening
 * the source or writing either file, if any.
 */
module ConvertIcon {
  import opened Wrappers

  const USAGE := "Usage: python convert_icon.py <src_png> <dst_ico>"

  /** The square sizes the ICO embeds, largest first. */
  const ICON_SIZES: seq<int> := [256, 128, 64, 48, 32, 16]

  /** `s.rfind(c)`: the last index holding `c`, or -1. */
  function LastIndex(s: string, c: char): (i: int)
    ensures -1 <= i < |s|
    ensures i >= 0 ==> s[i] == c
    ensures forall j :: i < j < |s| ==> s[j] != c
  {
    if |s| == 0 then -1
    else if s[|s| - 1] == c then |s| - 1
    else LastIndex(s[..|s| - 1], c)
  }

  /**
   * `os.path.splitext(p)`: the extension starts at the last dot of the file
   * name, provided the name has a character other than a dot before it, so
   * leading dots never start an extension.
   */
  function SplitExt(p: string): (string, string)
  {
    var sepIndex := LastIndex(p, '/');
    var dotIndex := LastIndex(p, '.');
    if dotIndex > sepIndex && exists k :: sepIndex < k < dotIndex && p[k] != '.' then (p[..dotIndex], p[dotIndex..])
    else (p, "")
  }

  /** `os.path.splitext(dst_ico)[0] + ".png"`. */
  function PngPath(icoPath: string): string
  {
    SplitExt(icoPath).0 + ".png"
  }

  /**
   * The two parts put back together give the path; an extension is a dot
   * followed by neither a dot nor a slash, and it is preceded, inside the
   * file name, by some character other than a dot.
   */
  lemma SplitExtParts(p: string)
    ensures SplitExt(p).0 + SplitExt(p).1 == p
    ensures var ext := SplitExt(p).1;
      ext == "" || (ext[0] == '.' && forall j :: 1 <= j < |ext| ==> ext[j] != '.' && ext[j] != '/')
    ensures var root := SplitExt(p).0;
      SplitExt(p).1 != "" ==> exists k :: LastIndex(p, '/') < k < |root| && root[k] != '.'
  {
    var sepIndex := LastIndex(p, '/');
    var dotIndex := LastIndex(p, '.');
    if dotIndex > sepIndex && exists k :: sepIndex < k < dotIndex && p[k] != '.' {
      assert p[..dotIndex] + p[dotIndex..] == p;
      var ext := p[dotIndex..];
      forall j | 1 <= j < |ext|
        ensures ext[j] != '.' && ext[j] != '/'
      {
        assert ext[j] == p[dotIndex + j];
      }
    }
  }

  /**
   * The PNG path differs from the ICO path only in its final extension:
   * the directory and the stem are kept, and `.png` ends it.
   */
  lemma PngPathKeepsStem(p: string)
    ensures var png := PngPath(p);
      var dir := LastIndex(p, '/') + 1;
      |png| >= 4 && png[|png| - 4..] == ".png"
      && png[..|png| - 4] == SplitExt(p).0
      && dir <= |SplitExt(p).0| && png[..dir] == p[..dir]
  {
    SplitExtParts(p);
    var root := SplitExt(p).0;
    var png := PngPath(p);
    assert png[..|png| - 4] == root;
    assert png[|png| - 4..] == ".png";
    var dir := LastIndex(p, '/') + 1;
    if SplitExt(p).1 != "" {
      var k :| LastIndex(p, '/') < k < |root| && root[k] != '.';
    }
    assert root == p[..|root|];
    assert png[..dir] == root[..dir];
  }

  /** A path whose file name has no extension gets `.png` appended. */
  lemma PngPathAppends(p: string)
    requires SplitExt(p).1 == ""
    ensures PngPath(p) == p + ".png"
  {
  }

  /** Examples: only the final extension goes, a dotted directory is not an extension, a leading dot is not either. */
  lemma PngPathExamples()
    ensures PngPath("build/app.ico") == "build/app.png"
    ensures PngPath("app.tar.ico") == "app.tar.png"
    ensures PngPath("v1.2/icon") == "v1.2/icon.png"
    ensures PngPath(".ico") == ".ico.png"
  {
    LastIndexIs("build/app.ico", '.', 9);
    LastIndexIs("build/app.ico", '/', 5);
    assert "build/app.ico"[6] != '.';
    LastIndexIs("app.tar.ico", '.', 7);
    LastIndexIs("app.tar.ico", '/', -1);
    assert "app.tar.ico"[0] != '.';
    LastIndexIs("v1.2/icon", '/', 4);
    LastIndexIs("v1.2/icon", '.', 2);
    LastIndexIs(".ico", '/', -1);
    LastIndexIs(".ico", '.', 0);
  }

  /** The last index is the one position holding `c` with none after it. */
  lemma LastIndexIs(s: string, c: char, k: int)
    requires -1 <= k < |s| && (k >= 0 ==> s[k] == c)
    requires forall j :: k < j < |s| ==> s[j] != c
    ensures LastIndex(s, c) == k
  {
  }

  /** A file the script wrote: its path, its format and, for the ICO, the sizes it embeds. */
  datatype Written = Written(path: string, format: string, sizes: seq<int>)

  /** What a run of the script did: its exit status, the lines it printed, the files it wrote in order. */
  datatype ScriptRun = ScriptRun(exitCode: int, output: seq<string>, written: seq<Written>)

  /**
   * `python convert_icon.py <src_png> <dst_ico>`.  `openError`, `pngError`
   * and `icoError` are the messages Pillow raised opening the source,
   * writing the PNG and writing the ICO, if it did.
   */
  function RunScript(argv: seq<string>, openError: Option<string>, pngError: Option<string>, icoError: Option<string>): ScriptRun
  {
    if |argv| < 3 then ScriptRun(1, [USAGE], [])
    else
      var icoPath := argv[2];
      var pngPath := PngPath(icoPath);
      if openError.Some? then ScriptRun(1, ["Error: " + openError.value], [])
      else if pngError.Some? then ScriptRun(1, ["Error: " + pngError.value], [])
      else
        var png := Written(pngPath, "PNG", []);
        var saved := "Saved PNG to " + pngPath;
        if icoError.Some? then ScriptRun(1, [saved, "Error: " + icoError.value], [png])
        else ScriptRun(0, [saved, "Saved ICO to " + icoPath], [png, Written(icoPath, "ICO", ICON_SIZES)])
  }

  /**
   * Fewer than two arguments print the usage and exit with status 1 before
   * any file is touched.  Otherwise the PNG is written before the ICO, the
   * ICO embeds the six sizes, any exception exits with status 1 after
   * printing it, and a PNG already written stays in place.
   */
  lemma RunOutcome(argv: seq<string>, openError: Option<string>, pngError: Option<string>, icoError: Option<string>)
    ensures var r := RunScript(argv, openError, pngError, icoError);
      (|argv| < 3 ==> r == ScriptRun(1, [USAGE], []))
      && (r.exitCode == 0 <==> |argv| >= 3 && openError.None? && pngError.None? && icoError.None?)
      && (r.exitCode == 0 ==> r.written == [Written(PngPath(argv[2]), "PNG", []), Written(argv[2], "ICO", ICON_SIZES)])
      && (|argv| >= 3 && openError.None? && pngError.None? ==> |r.written| >= 1 && r.written[0].path == PngPath(argv[2]))
      && (forall i :: 0 <= i < |r.written| && r.written[i].format == "ICO" ==> i == 1 && r.written[0].format == "PNG")
      && (r.exitCode != 0 && |argv| >= 3 ==> r.output[|r.output| - 1][..7] == "Error: ")
  {
  }
}
