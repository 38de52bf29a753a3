/**
 * The decisions tornado_gallery/resizer.py makes around the image library:
 * the output format tables, the choice of output format, the derivation of
 * a missing target dimension, the per-request lock registry, the cache file
 * name and the test for reusing a cached file.
 *
 * The libmagic MIME probe, the source image's pixel size and the cache
 * directory's file sizes and modification times are parameters. Rotation
 * is an exact count of millionths of a degree, the precision of the `%.6f`
 * field of the cache name.
 */
module Resizer {
  import opened Wrappers
  import opened Text

  // ---------------------------------------------------------------------
  // Formats: the ImageFormat enum and its two lookup tables
  // ---------------------------------------------------------------------

  /** `_FORMAT_EXT`: MIME type to file extension. */
  const FormatExt: map<string, string> :=
    map["image/jpeg" := "jpg", "image/png" := "png", "image/gif" := "gif"]

  /** `_FORMAT_PIL`: MIME type to the image library's encoder name. */
  const FormatPil: map<string, string> :=
    map["image/jpeg" := "JPEG", "image/png" := "PNG", "image/gif" := "GIF"]

  datatype ImageFormat = JPEG | PNG | GIF
  {
    /** The enum member's value. */
    function Mime(): string
    {
      match this
      case JPEG => "image/jpeg"
      case PNG => "image/png"
      case GIF => "image/gif"
    }

    /** `ImageFormat.ext`: looked up in `_FORMAT_EXT` by the member's value. */
    function Ext(): string
    {
      FormatExt[Mime()]
    }

    /** `ImageFormat.pil_fmt`: looked up in `_FORMAT_PIL` by the member's value. */
    function PilName(): string
    {
      FormatPil[Mime()]
    }
  }

  /** `ImageFormat(value)`: the member with that value; ValueError (`None`) for any other string. */
  function FormatFromMime(mime: string): Option<ImageFormat>
  {
    if mime == "image/jpeg" then Some(JPEG)
    else if mime == "image/png" then Some(PNG)
    else if mime == "image/gif" then Some(GIF)
    else None
  }

  /** The format whose extension is `ext`, used to read a cache name back. */
  function FormatFromExt(ext: string): Option<ImageFormat>
  {
    if ext == "jpg" then Some(JPEG)
    else if ext == "png" then Some(PNG)
    else if ext == "gif" then Some(GIF)
    else None
  }

  /**
   * The tables agree with the enum: each member's value converts back to
   * it and only the three values convert; extensions are jpg/png/gif and
   * encoder names JPEG/PNG/GIF; values and extensions tell members apart
   * and an extension contains no dot.
   */
  lemma FormatTables(f: ImageFormat, g: ImageFormat, mime: string)
    ensures FormatFromMime(f.Mime()) == Some(f)
    ensures FormatFromMime(mime).Some? ==> FormatFromMime(mime).value.Mime() == mime
    ensures FormatFromExt(f.Ext()) == Some(f)
    ensures f.Ext() == (match f case JPEG => "jpg" case PNG => "png" case GIF => "gif")
    ensures f.PilName() == (match f case JPEG => "JPEG" case PNG => "PNG" case GIF => "GIF")
    ensures f != g ==> f.Mime() != g.Mime() && f.Ext() != g.Ext()
    ensures '.' !in f.Ext()
  {
  }

  datatype ResizeError =
    | UnknownFormat(mime: string)   // ImageFormat(img_format) raises ValueError
    | ZeroDivision                  // a zero raw dimension in the ratio
    | NoneOperand                   // arithmetic on a missing (None) dimension: TypeError
    | NoDimensions                  // corrected model: neither dimension given

  // ---------------------------------------------------------------------
  // Output format
  // ---------------------------------------------------------------------

  /**
   * Lines 58-72 of `get_resized`: without a requested format, a GIF source
   * gives GIF, otherwise quality 100 gives PNG and anything else JPEG; a
   * requested format must be one of the three MIME values.
   */
  function ResolveFormat(requested: Option<string>, sniffedMime: string, quality: int): Result<ImageFormat, ResizeError>
  {
    match requested
    case None =>
      if sniffedMime == "image/gif" then Ok(GIF)
      else if quality == 100 then Ok(PNG)
      else Ok(JPEG)
    case Some(mime) =>
      match FormatFromMime(mime)
      case None => Err(UnknownFormat(mime))
      case Some(f) => Ok(f)
  }

  /**
   * The format rule in both directions: a requested value is accepted iff
   * it is one of the three MIME types (and then the probe and the quality
   * are ignored); otherwise GIF iff the source probes as GIF, PNG iff it
   * does not and quality is 100.
   */
  lemma ResolveFormatRule(requested: Option<string>, sniffedMime: string, quality: int)
    ensures requested.Some? ==>
      (ResolveFormat(requested, sniffedMime, quality).Ok? <==> requested.value in FormatExt.Keys)
    ensures requested.Some? && ResolveFormat(requested, sniffedMime, quality).Ok? ==>
      ResolveFormat(requested, sniffedMime, quality).value.Mime() == requested.value
    ensures requested.None? ==>
      && ResolveFormat(requested, sniffedMime, quality).Ok?
      && (ResolveFormat(requested, sniffedMime, quality).value == GIF <==> sniffedMime == "image/gif")
      && (ResolveFormat(requested, sniffedMime, quality).value == PNG <==> sniffedMime != "image/gif" && quality == 100)
  {
  }

  // ---------------------------------------------------------------------
  // Target dimensions
  // ---------------------------------------------------------------------

  /** The source image's pixel size as the image library reports it. */
  datatype RawSize = RawSize(width: nat, height: nat)

  datatype Dims = Dims(width: int, height: int)

  /** Python's `int(a / b)` for exact operands: division truncating toward zero. */
  function TruncDiv(a: int, b: int): int
    requires b > 0
  {
    if a >= 0 then a / b else -((-a) / b)
  }

  /**
   * Lines 75-87 of `get_resized` as written, with `ratio >= 1.0` read as
   * `raw.width >= raw.height` and `width / ratio`, `height * ratio` as
   * exact truncated quotients. When only the height is given and the
   * source is landscape or square, the first branch divides the missing
   * width (None) and raises TypeError.
   */
  function ResolveDimensionsAsWritten(width: Option<int>, height: Option<int>, raw: RawSize): Result<Dims, ResizeError>
  {
    if width.Some? && height.Some? then Ok(Dims(width.value, height.value))
    else if raw.height == 0 then Err(ZeroDivision)
    else if raw.width >= raw.height || height.None? then
      if width.None? then Err(NoneOperand)
      else if raw.width == 0 then Err(ZeroDivision)
      else Ok(Dims(width.value, TruncDiv(width.value * raw.height, raw.width)))
    else
      Ok(Dims(TruncDiv(height.value * raw.width, raw.height), height.value))
  }

  /** The failing input: height 600 alone for a 4000x3000 source raises instead of giving 800x600. */
  lemma HeightOnlyLandscapeFails()
    ensures ResolveDimensionsAsWritten(None, Some(600), RawSize(4000, 3000)) == Err(NoneOperand)
    ensures ResolveDimensions(None, Some(600), RawSize(4000, 3000)) == Ok(Dims(800, 600))
  {
  }

  /**
   * The evident intent: keep the given dimension and derive the missing
   * one from the source's aspect ratio; both given pass through unchanged.
   */
  function ResolveDimensions(width: Option<int>, height: Option<int>, raw: RawSize): Result<Dims, ResizeError>
  {
    if width.Some? && height.Some? then Ok(Dims(width.value, height.value))
    else if raw.height == 0 then Err(ZeroDivision)
    else if width.Some? then
      if raw.width == 0 then Err(ZeroDivision)
      else Ok(Dims(width.value, TruncDiv(width.value * raw.height, raw.width)))
    else if height.Some? then
      Ok(Dims(TruncDiv(height.value * raw.width, raw.height), height.value))
    else Err(NoDimensions)
  }

  /**
   * The corrected rule only adds results: wherever the code as written
   * produces dimensions, the corrected rule produces the same ones.
   */
  lemma CorrectionAgreesWhereCodeWorks(width: Option<int>, height: Option<int>, raw: RawSize)
    requires ResolveDimensionsAsWritten(width, height, raw).Ok?
    ensures ResolveDimensions(width, height, raw) == ResolveDimensionsAsWritten(width, height, raw)
  {
  }

  /** When both dimensions are given they pass through unchanged, as written and corrected alike. */
  lemma BothGivenPassThrough(width: int, height: int, raw: RawSize)
    ensures ResolveDimensionsAsWritten(Some(width), Some(height), raw) == Ok(Dims(width, height))
    ensures ResolveDimensions(Some(width), Some(height), raw) == Ok(Dims(width, height))
  {
  }

  /** `TruncDiv` of a non-negative numerator is the floor: `q * b <= a < (q + 1) * b`. */
  lemma TruncDivBounds(a: int, b: int)
    requires a >= 0 && b > 0
    ensures TruncDiv(a, b) >= 0
    ensures TruncDiv(a, b) * b <= a < (TruncDiv(a, b) + 1) * b
  {
  }

  /**
   * The derived dimension preserves the source's aspect ratio as closely
   * as truncation allows: with a non-negative given side, the derived side
   * is the largest whole number not exceeding the exact proportional value,
   * and the given side is kept.
   */
  lemma {:induction false} DerivedSideIsProportional(width: Option<int>, height: Option<int>, raw: RawSize)
    requires ResolveDimensions(width, height, raw).Ok?
    requires !(width.Some? && height.Some?)
    requires width.Some? ==> width.value >= 0
    requires height.Some? ==> height.value >= 0
    ensures var d := ResolveDimensions(width, height, raw).value;
      if width.Some? then
        d.width == width.value && d.height >= 0 &&
        d.height * raw.width <= d.width * raw.height < (d.height + 1) * raw.width
      else
        height.Some? && d.height == height.value && d.width >= 0 &&
        d.width * raw.height <= d.height * raw.width < (d.width + 1) * raw.height
  {
    if width.Some? {
      TruncDivBounds(width.value * raw.height, raw.width);
    } else {
      TruncDivBounds(height.value * raw.width, raw.height);
    }
  }

  /** A landscape 1920x1080 source asked for width 640 gives 640x360. */
  lemma WidthOnlyExample()
    ensures ResolveDimensions(Some(640), None, RawSize(1920, 1080)) == Ok(Dims(640, 360))
  {
  }

  // ---------------------------------------------------------------------
  // The request key, its cache file name, and reading the name back
  // ---------------------------------------------------------------------

  /** `mutex_key`: every parameter that distinguishes one rendition. */
  datatype ResizeKey = ResizeKey(gallery: string, photo: string, width: int, height: int,
                                 quality: int, rotation: int, format: ImageFormat)

  /** The shared start of every cache name for one photo: `<gallery>-<photo>-`. */
  function NamePrefix(gallery: string, photo: string): string
  {
    gallery + "-" + photo + "-"
  }

  /** The rest of the name: `<w>x<h>-<quality>-<rotation:.6f>.<ext>`. */
  function NameSuffix(k: ResizeKey): string
  {
    IntToString(k.width) + "x" + IntToString(k.height) + "-" + IntToString(k.quality) + "-" +
    Fixed6(k.rotation) + "." + k.format.Ext()
  }

  /**
   * The cache file name `_do_resize` builds (the photo id keeps its
   * extension). The source joins it onto the cache directory's path; the
   * model keeps the base name, and the cache directory is the map it keys.
   */
  function CacheName(k: ResizeKey): string
  {
    NamePrefix(k.gallery, k.photo) + NameSuffix(k)
  }

  /** Reads a `%d` field followed by the separator `sep`, returning the text after the separator. */
  function ParseField(s: string, sep: char): Option<(int, string)>
  {
    match ParseInt(s)
    case None => None
    case Some((n, rest)) => if |rest| == 0 || rest[0] != sep then None else Some((n, rest[1..]))
  }

  /** Reads the tail `<rotation:.6f>.<ext>` of a name. */
  function ParseRotationExt(s: string): Option<(int, ImageFormat)>
  {
    match ParseFixed6(s)
    case None => None
    case Some((rot, rest)) =>
      if |rest| == 0 || rest[0] != '.' then None else
      match FormatFromExt(rest[1..])
      case None => None
      case Some(f) => Some((rot, f))
  }

  /** Reads a suffix written by `NameSuffix` back into its fields. */
  function ParseSuffix(gallery: string, photo: string, s: string): Option<ResizeKey>
  {
    match ParseField(s, 'x')
    case None => None
    case Some((w, r1)) =>
      match ParseField(r1, '-')
      case None => None
      case Some((h, r2)) =>
        match ParseField(r2, '-')
        case None => None
        case Some((q, r3)) =>
          match ParseRotationExt(r3)
          case None => None
          case Some((rot, f)) => Some(ResizeKey(gallery, photo, w, h, q, rot, f))
  }

  /** A `%d` field and a non-digit separator read back as the number and the text after the separator. */
  lemma ParseFieldOf(n: int, sep: char, rest: string)
    requires !IsDigit(sep)
    ensures ParseField(IntToString(n) + ([sep] + rest), sep) == Some((n, rest))
  {
    ParseIntOfString(n, [sep] + rest);
    assert ([sep] + rest)[1..] == rest;
  }

  /** The rotation field and extension read back as the rotation and the format. */
  lemma ParseRotationExtOf(rotation: int, f: ImageFormat)
    ensures ParseRotationExt(Fixed6(rotation) + ("." + f.Ext())) == Some((rotation, f))
  {
    var ext := "." + f.Ext();
    ParseFixed6OfString(rotation, ext);
    assert ext[1..] == f.Ext();
    FormatTables(f, f, "");
  }

  /** Recovers the request from a cache name, given the gallery and photo it belongs to. */
  function ParseCacheName(gallery: string, photo: string, name: string): Option<ResizeKey>
  {
    var p := NamePrefix(gallery, photo);
    if |name| >= |p| && name[..|p|] == p then ParseSuffix(gallery, photo, name[|p|..]) else None
  }

  lemma {:induction false} ParseSuffixOfName(k: ResizeKey)
    ensures ParseSuffix(k.gallery, k.photo, NameSuffix(k)) == Some(k)
  {
    var s4 := Fixed6(k.rotation) + ("." + k.format.Ext());
    var s3 := IntToString(k.quality) + (['-'] + s4);
    var s2 := IntToString(k.height) + (['-'] + s3);
    var s1 := IntToString(k.width) + (['x'] + s2);
    assert NameSuffix(k) == s1;
    ParseFieldOf(k.width, 'x', s2);
    ParseFieldOf(k.height, '-', s3);
    ParseFieldOf(k.quality, '-', s4);
    ParseRotationExtOf(k.rotation, k.format);
  }

  /**
   * For a given gallery and photo the cache name determines every other
   * field: reading it back yields the request.
   */
  lemma CacheNameRoundTrip(k: ResizeKey)
    ensures ParseCacheName(k.gallery, k.photo, CacheName(k)) == Some(k)
  {
    var p := NamePrefix(k.gallery, k.photo);
    assert CacheName(k)[..|p|] == p;
    assert CacheName(k)[|p|..] == NameSuffix(k);
    ParseSuffixOfName(k);
  }

  /**
   * Two requests for the same gallery and photo share a cache name only
   * when they are the same request. (Across galleries and photos names can
   * collide, since both may contain '-'. The quality and rotation here are
   * integral; a fractional quality, truncated by `%d`, or rotations closer
   * than a millionth, rounded alike by `%.6f`, would give distinct lock
   * keys the same cache name.)
   */
  lemma CacheNameDistinguishesRequests(k1: ResizeKey, k2: ResizeKey)
    requires k1.gallery == k2.gallery && k1.photo == k2.photo
    requires CacheName(k1) == CacheName(k2)
    ensures k1 == k2
  {
    CacheNameRoundTrip(k1);
    CacheNameRoundTrip(k2);
  }

  /** The name starts with `<gallery>-<photo>-` and ends with a dot and the format's extension. */
  lemma CacheNameShape(k: ResizeKey)
    ensures CacheName(k)[..|NamePrefix(k.gallery, k.photo)|] == NamePrefix(k.gallery, k.photo)
    ensures var n := CacheName(k); var e := "." + k.format.Ext();
      |n| >= |e| && n[|n| - |e|..] == e
  {
    var n := CacheName(k);
    var e := "." + k.format.Ext();
    var body := NamePrefix(k.gallery, k.photo) + IntToString(k.width) + "x" + IntToString(k.height) + "-" +
      IntToString(k.quality) + "-" + Fixed6(k.rotation);
    assert n == body + e;
    assert n[|n| - |e|..] == e;
  }

  // ---------------------------------------------------------------------
  // Reusing a cached file
  // ---------------------------------------------------------------------

  /** Size and modification time of a file in the cache directory. */
  datatype FileStat = FileStat(size: int, mtime: int)

  /** An existing cache file is reused when it is non-empty and no older than the source. */
  predicate Reusable(cached: Option<FileStat>, sourceMtime: int)
  {
    cached.Some? && cached.value.size > 0 && cached.value.mtime >= sourceMtime
  }

  datatype Served = Reused | Rendered

  /**
   * `_do_resize` as a step on the cache directory: reuse a fresh file, or
   * render and write the file (stamped `now`, `renderedSize` bytes long).
   * This is the evident intent; as written the render branch always fails
   * (see `DoResizeAsWritten`).
   */
  function DoResize(k: ResizeKey, cacheDir: map<string, FileStat>, sourceMtime: int, now: int,
                    renderedSize: nat): (Served, map<string, FileStat>)
  {
    var name := CacheName(k);
    if Reusable(if name in cacheDir then Some(cacheDir[name]) else None, sourceMtime) then
      (Reused, cacheDir)
    else
      (Rendered, cacheDir[name := FileStat(renderedSize, now)])
  }

  /** How `_do_resize` as written fails once it has decided to render. */
  datatype RenderError =
    | UnboundCacheNode   // the cache file is missing, so `cache_node` was never bound (UnboundLocalError)
    | ReadOnlyWrite      // the rendition is saved through a file opened with 'rb'

  /**
   * `_do_resize` as written: `cache_node` is bound only when the cache
   * file exists, and the rendition is written through a read-only file, so
   * only the reuse branch completes.
   */
  function DoResizeAsWritten(k: ResizeKey, cacheDir: map<string, FileStat>, sourceMtime: int): Result<Served, RenderError>
  {
    var name := CacheName(k);
    if name !in cacheDir then Err(UnboundCacheNode)
    else if Reusable(Some(cacheDir[name]), sourceMtime) then Ok(Reused)
    else Err(ReadOnlyWrite)
  }

  /**
   * As written, a request succeeds exactly when the intended step would
   * reuse the file; every render fails, a missing file with the unbound
   * name and a stale or empty one with the read-only write.
   */
  lemma DoResizeAsWrittenOnlyReuses(k: ResizeKey, cacheDir: map<string, FileStat>, sourceMtime: int,
                                    now: int, renderedSize: nat)
    ensures DoResizeAsWritten(k, cacheDir, sourceMtime).Ok? <==>
      DoResize(k, cacheDir, sourceMtime, now, renderedSize).0 == Reused
    ensures DoResizeAsWritten(k, cacheDir, sourceMtime).Ok? ==> DoResizeAsWritten(k, cacheDir, sourceMtime).value == Reused
    ensures CacheName(k) !in cacheDir ==> DoResizeAsWritten(k, cacheDir, sourceMtime) == Err(UnboundCacheNode)
    ensures CacheName(k) in cacheDir && DoResize(k, cacheDir, sourceMtime, now, renderedSize).0 == Rendered ==>
      DoResizeAsWritten(k, cacheDir, sourceMtime) == Err(ReadOnlyWrite)
  {
  }

  /**
   * The failing input: with an empty cache directory the code as written
   * raises, where the intended step renders and stores the file.
   */
  lemma FirstRenderFailsAsWritten(k: ResizeKey, sourceMtime: int, now: int, renderedSize: nat)
    ensures DoResizeAsWritten(k, map[], sourceMtime) == Err(UnboundCacheNode)
    ensures DoResize(k, map[], sourceMtime, now, renderedSize) ==
      (Rendered, map[CacheName(k) := FileStat(renderedSize, now)])
  {
  }

  /**
   * Freshness in both directions: a file is reused iff it exists, is
   * non-empty and is no older than the source; a missing, empty or older
   * file is rendered again. Only the request's own file is ever written.
   */
  lemma DoResizeDecision(k: ResizeKey, cacheDir: map<string, FileStat>, sourceMtime: int, now: int, renderedSize: nat)
    ensures var name := CacheName(k);
      (DoResize(k, cacheDir, sourceMtime, now, renderedSize).0 == Reused <==>
         name in cacheDir && cacheDir[name].size > 0 && cacheDir[name].mtime >= sourceMtime)
    ensures DoResize(k, cacheDir, sourceMtime, now, renderedSize).0 == Reused ==>
      DoResize(k, cacheDir, sourceMtime, now, renderedSize).1 == cacheDir
    ensures forall n :: n != CacheName(k) ==>
      (n in DoResize(k, cacheDir, sourceMtime, now, renderedSize).1 <==> n in cacheDir) &&
      (n in cacheDir ==> DoResize(k, cacheDir, sourceMtime, now, renderedSize).1[n] == cacheDir[n])
  {
  }

  /**
   * Repeating a request is served from the cache: once a non-empty file
   * has been rendered at a time no earlier than the source's modification
   * time, the same request later reuses it and writes nothing.
   */
  lemma RenderedFileIsReused(k: ResizeKey, cacheDir: map<string, FileStat>, sourceMtime: int,
                             now: int, renderedSize: nat, later: int, size2: nat)
    requires renderedSize > 0 && now >= sourceMtime
    ensures var dir1 := DoResize(k, cacheDir, sourceMtime, now, renderedSize).1;
      DoResize(k, dir1, sourceMtime, later, size2) == (Reused, dir1)
  {
  }

  /** Touching the source past the cached file's time forces exactly that file to be rendered again. */
  lemma NewerSourceForcesRender(k: ResizeKey, cacheDir: map<string, FileStat>, sourceMtime: int,
                                now: int, renderedSize: nat)
    requires CacheName(k) in cacheDir && cacheDir[CacheName(k)].mtime < sourceMtime
    ensures DoResize(k, cacheDir, sourceMtime, now, renderedSize) ==
      (Rendered, cacheDir[CacheName(k) := FileStat(renderedSize, now)])
  {
  }

  // ---------------------------------------------------------------------
  // The request plan and the lock registry
  // ---------------------------------------------------------------------

  /**
   * The format and dimension resolution of `get_resized`, in its order:
   * the format is checked first, so an unknown format is reported before
   * anything else is looked at.
   */
  function Plan(gallery: string, photo: string, width: Option<int>, height: Option<int>, quality: int,
                rotation: int, requested: Option<string>, sniffedMime: string, raw: RawSize)
    : Result<ResizeKey, ResizeError>
  {
    match ResolveFormat(requested, sniffedMime, quality)
    case Err(e) => Err(e)
    case Ok(f) =>
      match ResolveDimensions(width, height, raw)
      case Err(e) => Err(e)
      case Ok(d) => Ok(ResizeKey(gallery, photo, d.width, d.height, quality, rotation, f))
  }

  /**
   * An unknown requested format rejects the request whatever the other
   * arguments; a successful plan keeps gallery, photo, quality and
   * rotation, and carries the resolved format and dimensions.
   */
  lemma PlanOutcome(gallery: string, photo: string, width: Option<int>, height: Option<int>, quality: int,
                    rotation: int, requested: Option<string>, sniffedMime: string, raw: RawSize)
    ensures requested.Some? && FormatFromMime(requested.value).None? ==>
      Plan(gallery, photo, width, height, quality, rotation, requested, sniffedMime, raw)
        == Err(UnknownFormat(requested.value))
    ensures Plan(gallery, photo, width, height, quality, rotation, requested, sniffedMime, raw).Ok? <==>
      ResolveFormat(requested, sniffedMime, quality).Ok? && ResolveDimensions(width, height, raw).Ok?
    ensures var p := Plan(gallery, photo, width, height, quality, rotation, requested, sniffedMime, raw);
      p.Ok? ==>
        && p.value.gallery == gallery && p.value.photo == photo
        && p.value.quality == quality && p.value.rotation == rotation
        && p.value.format == ResolveFormat(requested, sniffedMime, quality).value
        && Dims(p.value.width, p.value.height) == ResolveDimensions(width, height, raw).value
  {
  }

  /** `tornado.locks.Semaphore`, reduced to its counter. */
  class Semaphore {
    var value: int

    constructor (value: int)
      ensures this.value == value
    {
      this.value := value;
    }
  }

  /** `ResizerPool`, reduced to its registry `_mutexes` of one lock per request key. */
  class ResizerPool {
    var mutexes: map<ResizeKey, Semaphore>

    constructor ()
      ensures mutexes == map[]
    {
      mutexes := map[];
    }

    /**
     * Get-or-create: the registered lock for `key`, or a new `Semaphore(1)`
     * registered under it; the entries for other keys do not change.
     */
    method LockFor(key: ResizeKey) returns (m: Semaphore)
      modifies this
      ensures key in mutexes && mutexes[key] == m
      ensures key in old(mutexes) ==> m == old(mutexes)[key] && mutexes == old(mutexes)
      ensures key !in old(mutexes) ==> fresh(m) && m.value == 1 && mutexes == old(mutexes)[key := m]
    {
      if key in mutexes {
        m := mutexes[key];
      } else {
        m := new Semaphore(1);
        mutexes := mutexes[key := m];
      }
    }

    /**
     * `get_resized` up to acquiring the lock: resolve format and
     * dimensions, then get or create the lock for the resulting key. A
     * rejected request leaves the registry untouched.
     */
    method GetResized(gallery: string, photo: string, width: Option<int>, height: Option<int>, quality: int,
                      rotation: int, requested: Option<string>, sniffedMime: string, raw: RawSize)
      returns (r: Result<(ResizeKey, Semaphore), ResizeError>)
      modifies this
      ensures var p := Plan(gallery, photo, width, height, quality, rotation, requested, sniffedMime, raw);
        && (p.Err? ==> r == Err(p.error) && mutexes == old(mutexes))
        && (p.Ok? ==> r.Ok? && r.value.0 == p.value && p.value in mutexes && mutexes[p.value] == r.value.1)
        && (p.Ok? && p.value in old(mutexes) ==> r.value.1 == old(mutexes)[p.value] && mutexes == old(mutexes))
        && (p.Ok? && p.value !in old(mutexes) ==>
              fresh(r.value.1) && r.value.1.value == 1 && mutexes == old(mutexes)[p.value := r.value.1])
    {
      var plan := Plan(gallery, photo, width, height, quality, rotation, requested, sniffedMime, raw);
      if plan.Err? {
        return Err(plan.error);
      }
      var m := LockFor(plan.value);
      r := Ok((plan.value, m));
    }
  }
}
