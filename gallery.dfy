/**
 * Galleries and the gallery collection, tornado_gallery/gallery.py.
 *
 * A gallery lists the image files of its directory, ordered by name, and
 * rebuilds that list only when the directory's modification time moves
 * past the one it last built at. Each gallery name may be constructed once
 * (the class-level registry `_INSTANCE`), and the collection caches
 * galleries by name in an expiring map, constructing one on a miss.
 *
 * The directory's modification time and listing, the clock, `realpath`
 * and the sidecar files are parameters.
 */
module Galleries {
  import opened Wrappers
  import opened Text
  import opened ExpiringCache
  import opened Metadata
  import opened Photos

  datatype GalleryError =
    | AlreadyRegistered(name: string)   // the assertion in `Gallery.__init__`
    | NoExtension(entry: string)        // `rsplit('.', 1)` unpacking fails (ValueError)
    | NotBuilt                          // `_content` still None when it is copied
    | MetaFailed(cause: MetaError)      // loading `info.txt` failed
    | MissingField(key: string)         // the key is not in `info.txt` (KeyError)

  /** The extensions `content` accepts, compared after lower-casing. */
  const ImageExtensions: set<string> := {"jpg", "jpe", "jpeg", "gif", "png", "tif", "tiff", "bmp"}

  /** A directory entry is a photo iff its text after the last dot, lower-cased, is an image extension. */
  predicate IsImageName(entry: string)
  {
    match RSplitDot(entry)
    case None => false
    case Some((_, ext)) => Lower(ext) in ImageExtensions
  }

  /** `join`: a child of a directory. */
  function ChildPath(dir: string, child: string): string
  {
    dir + "/" + child
  }

  /** One item of the ordered content: a file name and its photo. */
  datatype Listed = Listed(name: string, photo: Photo)

  /** Names strictly ascending, so in particular no name twice. */
  predicate SortedByName(s: seq<Listed>)
  {
    forall i, j :: 0 <= i < j < |s| ==> Below(s[i].name, s[j].name)
  }

  /**
   * Puts `e` in its place by name, replacing an item with the same name
   * (a dictionary assignment followed by `sorted`).
   */
  function Insert(s: seq<Listed>, e: Listed): (r: seq<Listed>)
    requires SortedByName(s)
    ensures SortedByName(r)
    ensures forall x :: x in r <==> x == e || (x in s && x.name != e.name)
  {
    if s == [] then [e]
    else if s[0].name == e.name then
      assert forall x :: x in s[1..] ==> x.name != e.name by {
        forall x | x in s[1..] ensures x.name != e.name {
          var k :| 0 <= k < |s[1..]| && s[1..][k] == x;
          assert Below(s[0].name, s[k + 1].name);
          BelowIrreflexive(e.name);
        }
      }
      [e] + s[1..]
    else if Below(e.name, s[0].name) then
      assert forall j :: 0 <= j < |s| ==> Below(e.name, s[j].name) by {
        forall j | 0 <= j < |s| ensures Below(e.name, s[j].name) {
          if j > 0 {
            BelowTransitive(e.name, s[0].name, s[j].name);
          }
        }
      }
      assert forall x :: x in s ==> x.name != e.name by {
        forall x | x in s ensures x.name != e.name {
          var k :| 0 <= k < |s| && s[k] == x;
          BelowIrreflexive(e.name);
        }
      }
      [e] + s
    else
      BelowTotal(s[0].name, e.name);
      var rest := Insert(s[1..], e);
      assert forall x :: x in rest ==> Below(s[0].name, x.name) by {
        forall x | x in rest ensures Below(s[0].name, x.name) {
          if x != e {
            var k :| 0 <= k < |s[1..]| && s[1..][k] == x;
            assert s[k + 1] == x;
          }
        }
      }
      assert forall x :: x in s[1..] ==> x != s[0] by {
        forall x | x in s[1..] ensures x != s[0] {
          var k :| 0 <= k < |s[1..]| && s[1..][k] == x;
          assert Below(s[0].name, s[k + 1].name);
          BelowIrreflexive(s[0].name);
        }
      }
      assert s == [s[0]] + s[1..];
      [s[0]] + rest
  }

  /**
   * `entries` is the content of a directory with entries `listing`: one
   * photo per image entry, named after it, and nothing else, by name.
   */
  ghost predicate IsIndex(entries: seq<Listed>, listing: seq<string>, gallery: string, dir: string)
  {
    && SortedByName(entries)
    && (forall x :: x in entries ==> x.photo == Photo(gallery, x.name, ChildPath(dir, x.name)))
    && (forall x :: x in entries ==> x.name in listing && IsImageName(x.name))
    && (forall n :: n in listing && IsImageName(n) ==> exists x :: x in entries && x.name == n)
  }

  /** Two strictly ordered sequences with the same items are the same sequence. */
  lemma {:induction false} SortedUnique(a: seq<Listed>, b: seq<Listed>)
    requires SortedByName(a) && SortedByName(b)
    requires forall x :: x in a <==> x in b
    ensures a == b
  {
    assert a != [] ==> a[0] in b;
    assert b != [] ==> b[0] in a;
    if a != [] && b != [] {
      if a[0] != b[0] {
        assert b[0] in a && a[0] in b;
        var i :| 0 <= i < |a| && a[i] == b[0];
        var j :| 0 <= j < |b| && b[j] == a[0];
        assert i > 0 && j > 0;
        assert Below(a[0].name, b[0].name) && Below(b[0].name, a[0].name);
        BelowAsymmetric(a[0].name, b[0].name);
        assert false;
      }
      forall x ensures x in a[1..] <==> x in b[1..] {
        if x in a[1..] {
          var k :| 0 <= k < |a[1..]| && a[1..][k] == x;
          assert Below(a[0].name, a[k + 1].name);
          BelowIrreflexive(a[0].name);
          assert x in b && x != b[0];
        }
        if x in b[1..] {
          var k :| 0 <= k < |b[1..]| && b[1..][k] == x;
          assert Below(b[0].name, b[k + 1].name);
          BelowIrreflexive(b[0].name);
          assert x in a && x != a[0];
        }
      }
      SortedUnique(a[1..], b[1..]);
      assert a == [a[0]] + a[1..] && b == [b[0]] + b[1..];
    }
  }

  /** The content of a directory listing is determined by the listing: no two indexes differ. */
  lemma IndexUnique(a: seq<Listed>, b: seq<Listed>, listing: seq<string>, gallery: string, dir: string)
    requires IsIndex(a, listing, gallery, dir) && IsIndex(b, listing, gallery, dir)
    ensures a == b
  {
    forall x ensures x in a <==> x in b {
      if x in a {
        var y :| y in b && y.name == x.name;
      }
      if x in b {
        var y :| y in a && y.name == x.name;
      }
    }
    SortedUnique(a, b);
  }

  /** Every photo of an index has a dot in its path, as the photo lookups need. */
  lemma IndexedPhotosHaveExtension(entries: seq<Listed>, listing: seq<string>, gallery: string, dir: string)
    requires IsIndex(entries, listing, gallery, dir)
    ensures forall x :: x in entries ==> HasExtension(x.photo)
  {
    forall x | x in entries ensures HasExtension(x.photo) {
      RSplitDotSound(x.name);
      var p := ChildPath(dir, x.name);
      var k :| 0 <= k < |x.name| && x.name[k] == '.';
      assert p[|dir| + 1 + k] == '.';
    }
  }

  /** One step of the content scan: an image entry is inserted, any other entry is skipped. */
  lemma IndexStep(built: seq<Listed>, listing: seq<string>, i: nat, gallery: string, dir: string)
    requires i < |listing| && IsIndex(built, listing[..i], gallery, dir)
    ensures var entry := listing[i];
      IsIndex(if IsImageName(entry) then Insert(built, Listed(entry, Photo(gallery, entry, ChildPath(dir, entry)))) else built,
              listing[..i + 1], gallery, dir)
  {
    var entry := listing[i];
    assert listing[..i + 1] == listing[..i] + [entry];
    if IsImageName(entry) {
      var e := Listed(entry, Photo(gallery, entry, ChildPath(dir, entry)));
      var next := Insert(built, e);
      forall n | n in listing[..i + 1] && IsImageName(n) ensures exists x :: x in next && x.name == n {
        if n == entry {
          assert e in next;
        } else {
          var x :| x in built && x.name == n;
          assert x in next;
        }
      }
    }
  }

  /**
   * The scan of `content`: one photo per image entry of the listing,
   * ordered by name, or the first entry without a dot as the error.
   */
  method BuildIndex(gallery: string, dir: string, listing: seq<string>) returns (r: Result<seq<Listed>, GalleryError>)
    ensures (forall n :: n in listing ==> '.' in n) ==> r.Ok? && IsIndex(r.value, listing, gallery, dir)
    ensures (exists n :: n in listing && '.' !in n) ==>
      r.Err? && r.error.NoExtension? && r.error.entry in listing && '.' !in r.error.entry
  {
    var built: seq<Listed> := [];
    var i := 0;
    while i < |listing|
      invariant 0 <= i <= |listing|
      invariant forall j :: 0 <= j < i ==> '.' in listing[j]
      invariant IsIndex(built, listing[..i], gallery, dir)
    {
      var entry := listing[i];
      RSplitDotSound(entry);
      var split := RSplitDot(entry);
      if split.None? {
        return Err(NoExtension(entry));
      }
      IndexStep(built, listing, i, gallery, dir);
      if Lower(split.value.1) in ImageExtensions {
        built := Insert(built, Listed(entry, Photo(gallery, entry, ChildPath(dir, entry))));
      }
      i := i + 1;
    }
    assert listing[..i] == listing;
    r := Ok(built);
  }

  /** `Gallery`: one photo directory and its cached, ordered content. */
  class Gallery {
    const name: string
    const dirPath: string
    const metaCache: MetadataCache
    var content: Option<seq<Listed>>
    var contentMtime: int

    constructor (name: string, dirPath: string, metaCache: MetadataCache)
      ensures this.name == name && this.dirPath == dirPath && this.metaCache == metaCache
      ensures content == None && contentMtime == 0
    {
      this.name := name;
      this.dirPath := dirPath;
      this.metaCache := metaCache;
      content := None;
      contentMtime := 0;
    }

    /**
     * `content`: when the directory's modification time is later than the
     * recorded one, rebuild the name-ordered photo list from the listing
     * and record the new time; otherwise keep the stored list. The caller
     * receives the list as a value. An entry without a dot makes the
     * rebuild fail and leaves the gallery as it was.
     */
    method Content(dirMtime: int, listing: seq<string>) returns (r: Result<seq<Listed>, GalleryError>)
      modifies this
      ensures old(contentMtime) >= dirMtime ==>
        && content == old(content) && contentMtime == old(contentMtime)
        && r == (if content.Some? then Ok(content.value) else Err(NotBuilt))
      ensures old(contentMtime) < dirMtime && (forall n :: n in listing ==> '.' in n) ==>
        && content.Some? && IsIndex(content.value, listing, name, dirPath)
        && contentMtime == dirMtime && r == Ok(content.value)
      ensures old(contentMtime) < dirMtime && (exists n :: n in listing && '.' !in n) ==>
        && r.Err? && r.error.NoExtension? && r.error.entry in listing && '.' !in r.error.entry
        && content == old(content) && contentMtime == old(contentMtime)
    {
      if contentMtime < dirMtime {
        var built := BuildIndex(name, dirPath, listing);
        if built.Err? {
          return built;
        }
        content := Some(built.value);
        contentMtime := dirMtime;
      }
      if content.None? {
        return Err(NotBuilt);
      }
      r := Ok(content.value);
    }

    /** The path of the gallery's own sidecar, `info.txt` in its directory. */
    function InfoPath(): string
    {
      ChildPath(dirPath, "info.txt")
    }

    /**
     * `_meta` indexed by `key` (`title` and `desc`): the entry of the
     * gallery's `info.txt`, loaded through the metadata cache.
     */
    method MetaField(key: string, now: int, realpath: string -> string, disk: map<string, SidecarFile>)
      returns (r: Result<string, GalleryError>)
      requires metaCache.Valid()
      modifies metaCache
      ensures metaCache.Valid()
      ensures var f := Fetch(old(metaCache.files), realpath(InfoPath()), metaCache.statEnabled, disk);
        && (f.Err? ==> r == Err(MetaFailed(f.error)) && metaCache.files == old(metaCache.files))
        && (f.Ok? && key in f.value.data ==> r == Ok(f.value.data[key]))
        && (f.Ok? && key !in f.value.data ==> r == Err(MissingField(key)))
        && (f.Ok? ==> metaCache.files == old(metaCache.files)[realpath(InfoPath()) := Entry(now + metaCache.duration, f.value)])
    {
      var meta := metaCache.Get(InfoPath(), now, realpath, disk);
      if meta.Err? {
        return Err(MetaFailed(meta.error));
      }
      if key !in meta.value {
        return Err(MissingField(key));
      }
      r := Ok(meta.value[key]);
    }

    /** `title`: the `.title` entry of `info.txt`. */
    method Title(now: int, realpath: string -> string, disk: map<string, SidecarFile>)
      returns (r: Result<string, GalleryError>)
      requires metaCache.Valid()
      modifies metaCache
      ensures metaCache.Valid()
      ensures var f := Fetch(old(metaCache.files), realpath(InfoPath()), metaCache.statEnabled, disk);
        && (f.Err? ==> r == Err(MetaFailed(f.error)))
        && (f.Ok? && ".title" in f.value.data ==> r == Ok(f.value.data[".title"]))
        && (f.Ok? && ".title" !in f.value.data ==> r == Err(MissingField(".title")))
        && (f.Err? ==> metaCache.files == old(metaCache.files))
        && (f.Ok? ==> metaCache.files == old(metaCache.files)[realpath(InfoPath()) := Entry(now + metaCache.duration, f.value)])
    {
      r := MetaField(".title", now, realpath, disk);
    }

    /** `desc`: the `.desc` entry of `info.txt`. */
    method Desc(now: int, realpath: string -> string, disk: map<string, SidecarFile>)
      returns (r: Result<string, GalleryError>)
      requires metaCache.Valid()
      modifies metaCache
      ensures metaCache.Valid()
      ensures var f := Fetch(old(metaCache.files), realpath(InfoPath()), metaCache.statEnabled, disk);
        && (f.Err? ==> r == Err(MetaFailed(f.error)))
        && (f.Ok? && ".desc" in f.value.data ==> r == Ok(f.value.data[".desc"]))
        && (f.Ok? && ".desc" !in f.value.data ==> r == Err(MissingField(".desc")))
        && (f.Err? ==> metaCache.files == old(metaCache.files))
        && (f.Ok? ==> metaCache.files == old(metaCache.files)[realpath(InfoPath()) := Entry(now + metaCache.duration, f.value)])
    {
      r := MetaField(".desc", now, realpath, disk);
    }
  }

  /** `Gallery._INSTANCE`: the galleries constructed so far, by name. */
  class Registry {
    var instances: map<string, Gallery>

    constructor ()
      ensures instances == map[]
    {
      instances := map[];
    }

    /**
     * The registry holds its galleries weakly: an entry disappears once its
     * gallery is no longer referenced. Callers model that collection here.
     */
    method Forget(name: string)
      modifies this
      ensures instances == old(instances) - {name}
    {
      instances := instances - {name};
    }
  }

  /**
   * `Gallery.__init__`: a gallery whose name is already registered is
   * refused; otherwise a new, empty gallery is registered under its name
   * and no other entry changes.
   */
  method NewGallery(registry: Registry, metaCache: MetadataCache, name: string, dirPath: string)
    returns (r: Result<Gallery, GalleryError>)
    modifies registry
    ensures name in old(registry.instances) ==>
      r == Err(AlreadyRegistered(name)) && registry.instances == old(registry.instances)
    ensures name !in old(registry.instances) ==>
      && r.Ok? && fresh(r.value)
      && r.value.name == name && r.value.dirPath == dirPath && r.value.metaCache == metaCache
      && r.value.content == None && r.value.contentMtime == 0
      && registry.instances == old(registry.instances)[name := r.value]
  {
    if name in registry.instances {
      return Err(AlreadyRegistered(name));
    }
    var g := new Gallery(name, dirPath, metaCache);
    registry.instances := registry.instances[name := g];
    r := Ok(g);
  }

  /** `GalleryCollection`: galleries by name in an expiring cache, sharing one metadata cache. */
  class GalleryCollection {
    const rootPath: string
    const galleries: Cache<string, Gallery>
    const registry: Registry
    const metaCache: MetadataCache

    /**
     * The collection's cache and its metadata cache both expire after
     * `duration`; `statEnabled` says whether a file-system cache supplies
     * modification times to the metadata cache.
     */
    constructor (rootPath: string, duration: int, statEnabled: bool, registry: Registry)
      ensures this.rootPath == rootPath && this.registry == registry
      ensures fresh(galleries) && galleries.duration == duration && galleries.items == map[]
      ensures fresh(metaCache) && metaCache.Valid()
      ensures metaCache.duration == duration && metaCache.statEnabled == statEnabled && metaCache.files == map[]
    {
      this.rootPath := rootPath;
      this.registry := registry;
      galleries := new Cache(duration);
      metaCache := new MetadataCache(duration, statEnabled);
    }

    /** `_fetch`: construct the gallery for the directory `name` under the root. */
    method Fetch(name: string) returns (r: Result<Gallery, GalleryError>)
      modifies registry
      ensures name in old(registry.instances) ==>
        r == Err(AlreadyRegistered(name)) && registry.instances == old(registry.instances)
      ensures name !in old(registry.instances) ==>
        && r.Ok? && fresh(r.value)
        && r.value.name == name && r.value.dirPath == ChildPath(rootPath, name)
        && r.value.metaCache == metaCache && r.value.content == None
        && registry.instances == old(registry.instances)[name := r.value]
    {
      r := NewGallery(registry, metaCache, name, ChildPath(rootPath, name));
    }

    /**
     * `__getitem__` inherited from the expiring cache, with `_fetch` as the
     * loader: a cached gallery is returned and its expiry slid without
     * touching the registry; otherwise one is constructed (and registered)
     * and cached, or the failure is returned and nothing is cached.
     */
    method Get(name: string, now: int) returns (r: Result<Gallery, GalleryError>, fetched: bool)
      modifies galleries, registry
      ensures fetched <==> name !in old(galleries.items)
      ensures !fetched ==> r == Ok(old(galleries.items)[name].value) && registry.instances == old(registry.instances)
      ensures fetched && name in old(registry.instances) ==>
        r == Err(AlreadyRegistered(name)) && registry.instances == old(registry.instances)
      ensures fetched && name !in old(registry.instances) ==>
        && r.Ok? && fresh(r.value) && r.value.name == name && r.value.dirPath == ChildPath(rootPath, name)
        && registry.instances == old(registry.instances)[name := r.value]
      ensures r.Ok? ==> galleries.items == old(galleries.items)[name := Entry(now + galleries.duration, r.value)]
      ensures r.Err? ==> galleries.items == old(galleries.items)
    {
      var hit := galleries.TryHit(name, now);
      if hit.Some? {
        return Ok(hit.value), false;
      }
      fetched := true;
      r := Fetch(name);
      if r.Ok? {
        galleries.Store(name, now, r.value);
      }
    }
  }
}
