/**
 * The installer sidebar script: the centred crop box that brings an image
 * to the 164:314 aspect ratio of the installer's sidebar, the resize and the
 * save as BMP, and the command line around it.
 *
 * Pillow is a parameter: the size of the opened image (or the message of
 * the exception `Image.open` raised), and the message of an exception raised
 * while resizing or saving, if any.  Ratios are exact rationals.
 */
module ProcessAssets {
  import opened Wrappers
  import opened Text

  /** The sidebar's width and height in pixels. */
  const SIDEBAR_WIDTH := 164
  const SIDEBAR_HEIGHT := 314

  const USAGE := "Usage: python process_assets.py <src> <dst>"
  const CREATED := "✅ Created sidebar: "
  const FAILED := "❌ Error sidebar: "

  datatype Size = Size(width: nat, height: nat)

  /** A crop box `(left, top, right, bottom)` as Pillow takes it. */
  datatype Box = Box(left: int, top: int, right: int, bottom: int)

  /** `current_ratio > target_ratio`: the image is wider than 164:314. */
  predicate TooWide(size: Size)
    requires size.height > 0
  {
    size.width * SIDEBAR_HEIGHT > size.height * SIDEBAR_WIDTH
  }

  /**
   * The crop box: a too-wide image keeps its height and loses equal
   * margins left and right (the odd pixel going right); any other image
   * keeps its width and loses equal margins top and bottom.
   */
  function CropBox(size: Size): Box
    requires size.height > 0
  {
    if TooWide(size) then
      var newWidth := size.height * SIDEBAR_WIDTH / SIDEBAR_HEIGHT;
      var left := (size.width - newWidth) / 2;
      Box(left, 0, left + newWidth, size.height)
    else
      var newHeight := size.width * SIDEBAR_HEIGHT / SIDEBAR_WIDTH;
      var top := (size.height - newHeight) / 2;
      Box(0, top, size.width, top + newHeight)
  }

  /** The crop box lies inside the image. */
  lemma CropBoxInside(size: Size)
    requires size.height > 0
    ensures var b := CropBox(size);
      0 <= b.left <= b.right <= size.width && 0 <= b.top <= b.bottom <= size.height
  {
    var w, h := size.width, size.height;
    if TooWide(size) {
      WideWidthFits(w, h);
    } else {
      TallHeightFits(w, h);
    }
  }

  lemma WideWidthFits(w: nat, h: nat)
    requires w * SIDEBAR_HEIGHT > h * SIDEBAR_WIDTH
    ensures h * SIDEBAR_WIDTH / SIDEBAR_HEIGHT <= w
  {
    var n := h * SIDEBAR_WIDTH / SIDEBAR_HEIGHT;
    assert n * SIDEBAR_HEIGHT <= h * SIDEBAR_WIDTH;
  }

  lemma TallHeightFits(w: nat, h: nat)
    requires w * SIDEBAR_HEIGHT <= h * SIDEBAR_WIDTH
    ensures w * SIDEBAR_HEIGHT / SIDEBAR_WIDTH <= h
  {
    var n := w * SIDEBAR_HEIGHT / SIDEBAR_WIDTH;
    assert n * SIDEBAR_WIDTH <= w * SIDEBAR_HEIGHT;
  }

  /**
   * A too-wide image keeps its full height, and the kept width is the
   * largest whole width not wider than 164:314 of that height.
   */
  lemma WideCropKeepsHeight(size: Size)
    requires size.height > 0 && TooWide(size)
    ensures var b := CropBox(size);
      var kept := b.right - b.left;
      b.top == 0 && b.bottom == size.height
      && kept * SIDEBAR_HEIGHT <= size.height * SIDEBAR_WIDTH < (kept + 1) * SIDEBAR_HEIGHT
  {
    var kept := size.height * SIDEBAR_WIDTH / SIDEBAR_HEIGHT;
    FloorBounds(size.height * SIDEBAR_WIDTH, SIDEBAR_HEIGHT);
    assert CropBox(size).right - CropBox(size).left == kept;
  }

  /**
   * Any other image keeps its full width, and the kept height is the
   * largest whole height not taller than 314:164 of that width.
   */
  lemma TallCropKeepsWidth(size: Size)
    requires size.height > 0 && !TooWide(size)
    ensures var b := CropBox(size);
      var kept := b.bottom - b.top;
      b.left == 0 && b.right == size.width
      && kept * SIDEBAR_WIDTH <= size.width * SIDEBAR_HEIGHT < (kept + 1) * SIDEBAR_WIDTH
  {
    var kept := size.width * SIDEBAR_HEIGHT / SIDEBAR_WIDTH;
    FloorBounds(size.width * SIDEBAR_HEIGHT, SIDEBAR_WIDTH);
    assert CropBox(size).bottom - CropBox(size).top == kept;
  }

  lemma FloorBounds(n: nat, d: nat)
    requires d > 0
    ensures (n / d) * d <= n < (n / d + 1) * d
  {
  }

  /** The two margins the crop removes differ by at most one pixel, the extra one going right or bottom. */
  lemma CropCentred(size: Size)
    requires size.height > 0
    ensures var b := CropBox(size);
      b.left <= size.width - b.right <= b.left + 1
      && b.top <= size.height - b.bottom <= b.top + 1
  {
    CropBoxInside(size);
  }

  /** The file the script writes: the path, its size and its format. */
  datatype Saved = Saved(path: string, size: Size, format: string)

  /** What `create_installer_sidebar` did: the crop box it used, the file it saved, the line it printed. */
  datatype SidebarRun = SidebarRun(box: Option<Box>, saved: Option<Saved>, output: string)

  /**
   * `create_installer_sidebar(src, dst)`.  `image` is the size of the image
   * or the message `Image.open` raised; `saveError` the message raised by
   * the resize or the save.  A zero height raises a division by zero in
   * `width / height`.  Every exception is caught and printed.
   */
  function CreateInstallerSidebar(dst: string, image: Result<Size, string>, saveError: Option<string>): SidebarRun
  {
    if image.Failure? then SidebarRun(None, None, FAILED + image.error)
    else if image.value.height == 0 then SidebarRun(None, None, FAILED + "division by zero")
    else
      var box := CropBox(image.value);
      if saveError.Some? then SidebarRun(Some(box), None, FAILED + saveError.value)
      else SidebarRun(Some(box), Some(Saved(dst, Size(SIDEBAR_WIDTH, SIDEBAR_HEIGHT), "BMP")), CREATED + dst)
  }

  /**
   * A sidebar is written exactly when the image opened with a positive
   * height and nothing raised later; it is then the 164×314 BMP at `dst`,
   * cut with the centred crop box.  Every failure prints one error line
   * and writes nothing.
   */
  lemma SidebarOutcome(dst: string, image: Result<Size, string>, saveError: Option<string>)
    ensures var r := CreateInstallerSidebar(dst, image, saveError);
      (r.saved.Some? <==> image.Success? && image.value.height > 0 && saveError.None?)
      && (r.saved.Some? ==> r.saved.value == Saved(dst, Size(164, 314), "BMP") && r.box == Some(CropBox(image.value)))
      && (r.saved.Some? <==> StartsWith(r.output, CREATED))
      && (r.saved.None? <==> StartsWith(r.output, FAILED))
  {
    var r := CreateInstallerSidebar(dst, image, saveError);
    var rest := r.output[|if r.saved.Some? then CREATED else FAILED|..];
    if r.saved.Some? {
      assert r.output == CREATED + rest;
      Announced(CREATED, rest, FAILED);
    } else {
      assert r.output == FAILED + rest;
      Announced(FAILED, rest, CREATED);
    }
  }

  /** A line starting with one prefix does not start with another whose first character differs. */
  lemma Announced(prefix: string, rest: string, other: string)
    requires |prefix| > 0 && |other| > 0 && prefix[0] != other[0]
    ensures StartsWith(prefix + rest, prefix) && !StartsWith(prefix + rest, other)
  {
    assert (prefix + rest)[..|prefix|] == prefix;
    assert (prefix + rest)[0] == prefix[0];
  }

  /** What a run of the script did: its exit status, what it printed and, when called, the sidebar run. */
  datatype ScriptRun = ScriptRun(exitCode: int, output: seq<string>, sidebar: Option<SidebarRun>)

  /** `python process_assets.py <src> <dst>`: `argv` holds the script name and the arguments. */
  function RunScript(argv: seq<string>, image: Result<Size, string>, saveError: Option<string>): ScriptRun
  {
    if |argv| < 3 then ScriptRun(1, [USAGE], None)
    else
      var run := CreateInstallerSidebar(argv[2], image, saveError);
      ScriptRun(0, [run.output], Some(run))
  }

  /**
   * Fewer than two arguments print the usage line and exit with status 1
   * before any image is opened; otherwise the script always exits normally,
   * errors included, and writes to the second argument.
   */
  lemma MainOutcome(argv: seq<string>, image: Result<Size, string>, saveError: Option<string>)
    ensures var r := RunScript(argv, image, saveError);
      (r.exitCode == 1 <==> |argv| < 3)
      && (|argv| < 3 ==> r.output == [USAGE] && r.sidebar.None?)
      && (|argv| >= 3 ==> r.exitCode == 0 && r.sidebar.Some?)
      && (|argv| >= 3 && r.sidebar.value.saved.Some? ==> r.sidebar.value.saved.value.path == argv[2])
  {
  }
}
