/**
 * Metadata lookups of tornado_gallery/photo.py, as pure functions.
 *
 * A photo's own sidecar is the file next to it whose extension is replaced
 * by `txt`; the gallery's `info.txt` is the fallback. Each metadata file is
 * given as what the metadata cache yields for it: the parsed dictionary, or
 * the error. A missing file is the KeyError the lookups catch and read as a
 * miss; a malformed file is the ValueError of `parse_meta`, which no
 * handler catches, so it becomes the lookup's error. A successful lookup
 * that finds nothing is `None`.
 *
 * Several attribute slips in the source are read by their evident intent:
 * the gallery reference is dereferenced where `annotation` and `_get_meta`
 * use it without a call, `base_name` is read where `annotation` writes
 * `basename`, the sidecar node is loaded through the metadata cache where
 * `annotation` indexes the node itself, and the file-system cache is the
 * collection's, which `Gallery.__init__` never stores.
 */
module Photos {
  import opened Wrappers
  import opened Text
  import opened Metadata

  /** A photo: its gallery's name, its file name and its absolute path. */
  datatype Photo = Photo(gallery: string, name: string, absPath: string)

  /**
   * Every photo is created by `Gallery.content` for a file name with an
   * image extension, so its path contains a dot; `rsplit('.', 1)` on a
   * path without one would raise ValueError.
   */
  predicate HasExtension(p: Photo)
  {
    '.' in p.absPath
  }

  /** The path of `_meta_node`: the absolute path with the part after the last dot replaced by `txt`. */
  function SidecarPath(absPath: string): Option<string>
  {
    match RSplitDot(absPath)
    case None => None
    case Some((stem, _)) => Some(stem + ".txt")
  }

  /** Exactly the extension is swapped: `<stem>.<ext>` with a dot-free `ext` becomes `<stem>.txt`. */
  lemma SidecarPathSwapsExtension(stem: string, ext: string)
    requires '.' !in ext
    ensures SidecarPath(stem + "." + ext) == Some(stem + ".txt")
  {
    RSplitDotOfJoin(stem, ext);
  }

  /** Every path with a dot has a sidecar path, and taking the sidecar of a sidecar changes nothing. */
  lemma SidecarPathIdempotent(absPath: string)
    requires '.' in absPath
    ensures SidecarPath(absPath).Some?
    ensures SidecarPath(SidecarPath(absPath).value) == SidecarPath(absPath)
  {
    RSplitDotSound(absPath);
    var (stem, _) := RSplitDot(absPath).value;
    assert '.' !in "txt";
    assert SidecarPath(absPath).value == stem + "." + "txt";
    RSplitDotOfJoin(stem, "txt");
  }

  /**
   * The own sidecar of `p` as loaded, or `None` when that file does not
   * exist (`_meta_node` raising KeyError). `sidecars` holds the load
   * outcome of every existing sidecar file.
   */
  function OwnMeta(p: Photo, sidecars: map<string, Result<Meta, MetaError>>): Option<Result<Meta, MetaError>>
    requires HasExtension(p)
  {
    RSplitDotSound(p.absPath);
    var path := SidecarPath(p.absPath).value;
    if path in sidecars then Some(sidecars[path]) else None
  }

  /**
   * How a metadata dictionary is indexed: by a plain key, or (in
   * `_get_meta`'s fallback) by a `(photo name, key)` tuple.
   */
  datatype MetaKey = Field(key: string) | PhotoField(photo: string, key: string)

  /**
   * Indexing a parsed dictionary. `parse_meta` only ever builds string
   * keys, so a tuple key is never present.
   */
  function MetaLookup(m: Meta, k: MetaKey): Option<string>
  {
    match k
    case Field(key) => if key in m then Some(m[key]) else None
    case PhotoField(_, _) => None
  }

  /**
   * Indexing loaded metadata: a missing file or key is a miss (KeyError,
   * caught), a malformed file is an error that escapes.
   */
  function Index(m: Result<Meta, MetaError>, k: MetaKey): Result<Option<string>, MetaError>
  {
    match m
    case Err(MissingFile(_)) => Ok(None)
    case Err(e) => Err(e)
    case Ok(d) => Ok(MetaLookup(d, k))
  }

  /** A miss: the lookup succeeded and found nothing. */
  predicate Missed(r: Result<Option<string>, MetaError>)
  {
    r == Ok(None)
  }

  /**
   * `annotation`: the own sidecar's `.annotation`; failing that the gallery
   * metadata entry named after the photo's file; failing that `None`. A
   * malformed file met on the way is the error.
   */
  function Annotation(p: Photo, sidecars: map<string, Result<Meta, MetaError>>,
                      galleryMeta: Result<Meta, MetaError>): Result<Option<string>, MetaError>
    requires HasExtension(p)
  {
    var own := match OwnMeta(p, sidecars)
      case None => Ok(None)
      case Some(m) => Index(m, Field(".annotation"));
    if !Missed(own) then own
    else Index(galleryMeta, Field(p.name))
  }

  /**
   * The lookup chain of `annotation`: the own sidecar's entry wins, the
   * gallery's entry for the file name is used only when the own lookup
   * misses, and the result is `None` exactly when both miss. The only
   * error that escapes is a malformed file.
   */
  lemma AnnotationChain(p: Photo, sidecars: map<string, Result<Meta, MetaError>>, galleryMeta: Result<Meta, MetaError>)
    requires HasExtension(p)
    ensures var own := OwnMeta(p, sidecars);
      own.Some? && own.value.Ok? && ".annotation" in own.value.value ==>
        Annotation(p, sidecars, galleryMeta) == Ok(Some(own.value.value[".annotation"]))
    ensures var own := OwnMeta(p, sidecars);
      own.Some? && own.value.Err? && own.value.error.NoTab? ==>
        Annotation(p, sidecars, galleryMeta) == Err(own.value.error)
    ensures var own := OwnMeta(p, sidecars);
      var ownMissed := own.None? || (own.value.Ok? && ".annotation" !in own.value.value) || (own.value.Err? && own.value.error.MissingFile?);
      && (ownMissed ==> Annotation(p, sidecars, galleryMeta) == Index(galleryMeta, Field(p.name)))
      && (Annotation(p, sidecars, galleryMeta) == Ok(None) <==> ownMissed && Index(galleryMeta, Field(p.name)) == Ok(None))
    ensures Annotation(p, sidecars, galleryMeta).Err? ==> Annotation(p, sidecars, galleryMeta).error.NoTab?
  {
  }

  /**
   * With no own sidecar and a well-formed `info.txt`, a photo has an
   * annotation exactly when some line of `info.txt` is keyed by its file
   * name, and that annotation is the value of the last such line.
   */
  lemma {:induction false} AnnotationFromInfoFile(p: Photo, sidecars: map<string, Result<Meta, MetaError>>,
                                                  info: seq<string>, i: nat)
    requires HasExtension(p) && OwnMeta(p, sidecars).None?
    requires forall j :: 0 <= j < |info| ==> '\t' in info[j]
    ensures Annotation(p, sidecars, ParseMeta(info)).Ok?
    ensures Annotation(p, sidecars, ParseMeta(info)).value.Some? <==>
      exists j :: 0 <= j < |info| && KeyedBy(info[j], p.name)
    ensures i < |info| && KeyedBy(info[i], p.name) && (forall j :: i < j < |info| ==> !KeyedBy(info[j], p.name)) ==>
      Annotation(p, sidecars, ParseMeta(info)) == Ok(Some(SplitTab(info[i]).value.1))
  {
    ParseMetaFails(info);
    ParseMetaKeys(info, p.name);
    if i < |info| && KeyedBy(info[i], p.name) && (forall j :: i < j < |info| ==> !KeyedBy(info[j], p.name)) {
      ParseMetaLastWins(info, i);
    }
  }

  /**
   * `_get_meta`: read `key` from the own sidecar when it exists, and only
   * when it does not, index the gallery metadata by `(name, key)`.
   */
  function GetMeta(p: Photo, sidecars: map<string, Result<Meta, MetaError>>,
                   galleryMeta: Result<Meta, MetaError>, key: string): Result<Option<string>, MetaError>
    requires HasExtension(p)
  {
    match OwnMeta(p, sidecars)
    case Some(m) => Index(m, Field(key))
    case None => Index(galleryMeta, PhotoField(p.name, key))
  }

  /**
   * When the sidecar exists it alone decides (the gallery is not
   * consulted); when it does not, the tuple-keyed fallback finds nothing
   * in a parsed dictionary, so the lookup misses unless `info.txt` is
   * malformed.
   */
  lemma GetMetaSidecarFirst(p: Photo, sidecars: map<string, Result<Meta, MetaError>>, galleryMeta: Result<Meta, MetaError>,
                            galleryMeta': Result<Meta, MetaError>, key: string)
    requires HasExtension(p)
    ensures OwnMeta(p, sidecars).Some? ==>
      GetMeta(p, sidecars, galleryMeta, key) == GetMeta(p, sidecars, galleryMeta', key)
    ensures var own := OwnMeta(p, sidecars);
      own.Some? && own.value.Ok? ==>
        GetMeta(p, sidecars, galleryMeta, key) ==
          Ok(if key in own.value.value then Some(own.value.value[key]) else None)
    ensures var own := OwnMeta(p, sidecars);
      own.Some? && own.value.Err? ==>
        GetMeta(p, sidecars, galleryMeta, key) ==
          (if own.value.error.NoTab? then Err(own.value.error) else Ok(None))
    ensures OwnMeta(p, sidecars).None? ==>
      (GetMeta(p, sidecars, galleryMeta, key).Err? <==> galleryMeta.Err? && galleryMeta.error.NoTab?)
    ensures OwnMeta(p, sidecars).None? && GetMeta(p, sidecars, galleryMeta, key).Ok? ==>
      GetMeta(p, sidecars, galleryMeta, key).value.None?
  {
  }

  /** `preferred_width`: the `.width` value, `None` where the lookup would raise KeyError. */
  function PreferredWidth(p: Photo, sidecars: map<string, Result<Meta, MetaError>>,
                          galleryMeta: Result<Meta, MetaError>): Result<Option<string>, MetaError>
    requires HasExtension(p)
  {
    GetMeta(p, sidecars, galleryMeta, ".width")
  }

  /** `preferred_height`: the `.height` value, `None` where the lookup would raise KeyError. */
  function PreferredHeight(p: Photo, sidecars: map<string, Result<Meta, MetaError>>,
                           galleryMeta: Result<Meta, MetaError>): Result<Option<string>, MetaError>
    requires HasExtension(p)
  {
    GetMeta(p, sidecars, galleryMeta, ".height")
  }

  /**
   * The preferred sizes are the well-formed sidecar's `.width` / `.height`
   * text when present and `None` otherwise, never a KeyError: a missing
   * key, a missing sidecar and a missing or well-formed `info.txt` all give
   * `None`. Only a malformed sidecar, or a malformed `info.txt` when there
   * is no sidecar, is an error.
   */
  lemma PreferredSizes(p: Photo, sidecars: map<string, Result<Meta, MetaError>>, galleryMeta: Result<Meta, MetaError>)
    requires HasExtension(p)
    ensures var own := OwnMeta(p, sidecars);
      own.Some? && own.value.Ok? ==>
        && PreferredWidth(p, sidecars, galleryMeta) ==
             Ok(if ".width" in own.value.value then Some(own.value.value[".width"]) else None)
        && PreferredHeight(p, sidecars, galleryMeta) ==
             Ok(if ".height" in own.value.value then Some(own.value.value[".height"]) else None)
    ensures var own := OwnMeta(p, sidecars);
      var malformed := (own.Some? && own.value.Err? && own.value.error.NoTab?) ||
                       (own.None? && galleryMeta.Err? && galleryMeta.error.NoTab?);
      && (PreferredWidth(p, sidecars, galleryMeta).Ok? <==> !malformed)
      && (PreferredHeight(p, sidecars, galleryMeta).Ok? <==> !malformed)
    ensures var own := OwnMeta(p, sidecars);
      !(own.Some? && own.value.Ok?) && PreferredWidth(p, sidecars, galleryMeta).Ok? ==>
        PreferredWidth(p, sidecars, galleryMeta).value.None? && PreferredHeight(p, sidecars, galleryMeta).value.None?
    ensures PreferredWidth(p, sidecars, galleryMeta).Err? ==> PreferredWidth(p, sidecars, galleryMeta).error.NoTab?
    ensures PreferredHeight(p, sidecars, galleryMeta).Err? ==> PreferredHeight(p, sidecars, galleryMeta).error.NoTab?
  {
  }
}
