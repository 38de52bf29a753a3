# tornado-gallery cache bookkeeping, modelled in Dafny

This project models the cache bookkeeping behind tornado-gallery's photo server:

- `ExpiringCache` (`cache.dfy`) is the expiring key/value map. Each lookup slides a key's expiry to `now + duration`. A miss calls the loader. Iteration and length count only unexpired keys. `purge` removes expired entries, and `next_expiry` returns the earliest expiry.
- `Metadata` (`metadata.dfy`) covers two things. First, the flat `key<TAB>value` sidecar parser. Second, the metadata cache, which keeps one parsed dictionary per canonical path. Each dictionary is stamped with the file's modification time and parsed again only when that time changes.
- `Resizer` (`resizer.dfy`) holds the decisions made around the image library:
  - the format enum and its extension and encoder tables;
  - the choice of output format;
  - deriving a missing target dimension from the aspect ratio;
  - the per-request lock registry (get-or-create);
  - the cache file name and reading it back;
  - the test for reusing a cached file.
- `Photos` (`photo.dfy`) is the metadata lookup chain of a photo. The photo's own sidecar comes first, the gallery's `info.txt` is the fallback, and `None` is the default.
- `Galleries` (`gallery.dfy`) covers:
  - a gallery's name-ordered photo list, rebuilt only when the directory's modification time moves forward;
  - the registry that allows only one gallery per name;
  - gallery title and description;
  - the gallery collection as the cache's concrete loader.
- `Text` (`text.dfy`) and `Wrappers` (`wrappers.dfy`) hold the string operations the source borrows from Python: `rsplit('.', 1)`, `split('\t', 1)`, ASCII `lower()`, string ordering, and `%d` / `%.6f` formatting with parsers for them. They also hold `Option` and `Result`.

Some inputs become parameters:

- the clock is an integer `now`;
- the file system is a map from path to file;
- `realpath` is a function parameter;
- the libmagic MIME probe and the source image's pixel size are plain arguments;
- a directory's listing and modification time are method arguments.

Where the source keeps state that it updates in place, the model uses a class with `modifies` clauses: the two cache dictionaries, a gallery's content fields, the gallery registry and the lock registry. Where the source loops, the model has a method with a loop: purging, iterating the cache, finding the next expiry and scanning a directory. The remaining logic is functions, with lemmas stating their properties.

## Model

| member | source | states |
|---|---|---|
| Text.RSplitDotSound | tornado_gallery/gallery.py:71 | `rsplit('.', 1)` fails iff there is no dot; otherwise the text is `stem + "." + ext` with no dot in `ext` |
| Text.RSplitDotOfJoin | tornado_gallery/photo.py:46 | splitting `stem + "." + ext` at its last dot gives back `stem` and `ext` when `ext` has no dot |
| Text.Lower | tornado_gallery/gallery.py:72 | ASCII `lower()`: each character is mapped on its own, so the length is kept, and only `A`-`Z` change |
| Text.BelowIrreflexive | tornado_gallery/gallery.py:77-78 | string order is strict: no name sorts before itself |
| Text.BelowTransitive | tornado_gallery/gallery.py:77-78 | string order is transitive |
| Text.BelowTotal | tornado_gallery/gallery.py:77-78 | of two different names, one sorts before the other |
| Text.BelowAsymmetric | tornado_gallery/gallery.py:77-78 | two names never sort before each other |
| Text.IndexOf | tornado_gallery/metadata.py:12 | the first position of a character, or none when it does not occur |
| Text.ParseIntOfString | tornado_gallery/resizer.py:125-126 | a `%d` field reads back as the integer written |
| Text.ParseFixed6OfString | tornado_gallery/resizer.py:126 | a `%.6f` field of a rotation in millionths reads back as that rotation |
| ExpiringCache.PurgeExpired | tornado_gallery/cache.py:36-42 | the purge loop leaves exactly the entries whose expiry is not before `now` |
| ExpiringCache.PurgeIdempotent | tornado_gallery/cache.py:36-42 | a second purge at the same instant changes nothing |
| ExpiringCache.PurgeKeepsLive | tornado_gallery/cache.py:27-42 | purging does not change the keys iteration yields, and every survivor keeps its entry |
| ExpiringCache.ExpiryBoundary | tornado_gallery/cache.py:27-42 | an entry expiring at `now` is not iterated but survives a purge; one expiring earlier is neither iterated nor kept |
| ExpiringCache.SlidingExpiry | tornado_gallery/cache.py:24 | an entry just stored survives any purge up to `now + duration` and is iterated before then |
| ExpiringCache.Cache.constructor | tornado_gallery/cache.py:12-14 | a new cache is empty and keeps its duration |
| ExpiringCache.Cache.TryHit | tornado_gallery/cache.py:20-24 | a stored key yields its value without checking expiry and is stored again with expiry `now + duration`; an absent key changes nothing |
| ExpiringCache.Cache.Store | tornado_gallery/cache.py:24 | the key maps to `(now + duration, value)` and no other entry changes |
| ExpiringCache.Cache.Get | tornado_gallery/cache.py:16-25 | a hit returns the stored value without calling the loader; a miss calls it once and returns its result; on success the key holds `(now + duration, value)` and nothing else changes; a failing loader leaves the map unchanged |
| ExpiringCache.Cache.LiveKeys | tornado_gallery/cache.py:27-31 | yields each key whose expiry is strictly after `now`, once, and no other key |
| ExpiringCache.Cache.Len | tornado_gallery/cache.py:33-34 | the length is the number of keys iteration yields |
| ExpiringCache.Cache.Purge | tornado_gallery/cache.py:36-42 | exactly the entries with expiry before `now` are removed |
| ExpiringCache.Cache.NextExpiry | tornado_gallery/cache.py:44-52 | `None` iff the map is empty; otherwise the smallest expiry over all entries, expired ones included |
| Metadata.ParseMeta | tornado_gallery/metadata.py:7-14 | `parse_meta` as a function of the file's lines; its contract is stated by `ParseMetaFails`, `ParseMetaKeys` and `ParseMetaLastWins` |
| Metadata.Load | tornado_gallery/metadata.py:39-52 | the serve-or-reparse decision; its contract is stated by `ServedWhenStampMatches` and `ReparsedWhenStampDiffers` |
| Metadata.Fetch | tornado_gallery/metadata.py:27-52 | what `__getitem__` yields for a canonical path; its contract is stated by `ServedWhenStampMatches`, `ReparsedWhenStampDiffers` and `NoStatNeverReparses` |
| Metadata.SplitTabSound | tornado_gallery/metadata.py:12 | the split fails iff the line has no tab; otherwise the key is the text before the first tab and the value is everything after it |
| Metadata.SplitTabOfJoin | tornado_gallery/metadata.py:12 | a tab-free key joined to any value by a tab splits back into that key and value |
| Metadata.ParseMetaFails | tornado_gallery/metadata.py:11-14 | parsing fails iff some line has no tab |
| Metadata.ParseMetaKeys | tornado_gallery/metadata.py:11-14 | a key is in the result iff some line is keyed by it |
| Metadata.ParseMetaLastWins | tornado_gallery/metadata.py:11-14 | a key's value is the value on the last line with that key, later tabs and the newline included |
| Metadata.ServedWhenStampMatches | tornado_gallery/metadata.py:39-45 | a record whose stamp equals the current modification time is served as stored, whatever the file now holds |
| Metadata.ReparsedWhenStampDiffers | tornado_gallery/metadata.py:42-52 | a missing record, or one whose stamp differs in either direction, is parsed again and stamped with the current time; a missing file or a bad line is the error |
| Metadata.NoStatNeverReparses | tornado_gallery/metadata.py:25-37 | without a file-system cache a loaded record is served until it is purged |
| Metadata.MetadataCache.constructor | tornado_gallery/metadata.py:22-25 | a new metadata cache is empty |
| Metadata.MetadataCache.Get | tornado_gallery/metadata.py:27-52 | the result is the decision above for the canonical path; on success that path's record is stored again with expiry `now + duration`; on failure nothing changes |
| Metadata.MetadataCache.StoreFile | tornado_gallery/metadata.py:54-55 | the path maps to `(now + duration, mtime, data)` and no other record changes |
| Metadata.MetadataCache.Purge | tornado_gallery/metadata.py:57-63 | exactly the records with expiry before `now` are removed |
| Resizer.FormatTables | tornado_gallery/resizer.py:14-38 | the three formats have extensions `jpg`/`png`/`gif` and encoder names `JPEG`/`PNG`/`GIF`; their MIME values and extensions are distinct; lookup by MIME value or by extension is inverse to the tables |
| Resizer.ResolveFormat | tornado_gallery/resizer.py:58-72 | the output format choice; its contract is stated by `ResolveFormatRule` |
| Resizer.ResolveFormatRule | tornado_gallery/resizer.py:58-72 | a requested format is accepted iff it is one of the three MIME values; with none requested, GIF iff the source probes as GIF, else PNG iff quality is 100, else JPEG |
| Resizer.ResolveDimensionsAsWritten | tornado_gallery/resizer.py:74-87 | the dimension rule as written; its contract is stated by `HeightOnlyLandscapeFails`, `CorrectionAgreesWhereCodeWorks` and `BothGivenPassThrough` |
| Resizer.ResolveDimensions | tornado_gallery/resizer.py:74-87 | the corrected dimension rule; its contract is stated by `DerivedSideIsProportional`, `CorrectionAgreesWhereCodeWorks` and `BothGivenPassThrough` |
| Resizer.HeightOnlyLandscapeFails | tornado_gallery/resizer.py:82-87 | as written, height 600 alone for a 4000x3000 source raises; the corrected rule gives 800x600 |
| Resizer.CorrectionAgreesWhereCodeWorks | tornado_gallery/resizer.py:74-87 | wherever the code as written yields dimensions, the corrected rule yields the same ones |
| Resizer.BothGivenPassThrough | tornado_gallery/resizer.py:75 | when width and height are both given, they pass through unchanged, as written and corrected alike |
| Resizer.DerivedSideIsProportional | tornado_gallery/resizer.py:79-87 | the given side is kept and the derived side is the truncated proportional value |
| Resizer.WidthOnlyExample | tornado_gallery/resizer.py:82-84 | width 640 for a 1920x1080 source gives 640x360 |
| Resizer.CacheName | tornado_gallery/resizer.py:123-134 | the cache file name; its contract is stated by `CacheNameRoundTrip`, `CacheNameDistinguishesRequests` and `CacheNameShape` |
| Resizer.ParseFieldOf | tornado_gallery/resizer.py:125-126 | a `%d` field followed by its separator reads back as the number and the text after the separator |
| Resizer.ParseRotationExtOf | tornado_gallery/resizer.py:126-133 | the `%.6f` rotation and the extension read back as the rotation and the format |
| Resizer.ParseSuffixOfName | tornado_gallery/resizer.py:124-126 | the `<w>x<h>-<quality>-<rotation>.<ext>` part of a name reads back as the request it was built from |
| Resizer.CacheNameRoundTrip | tornado_gallery/resizer.py:123-134 | given its gallery and photo, a cache name reads back as the full request |
| Resizer.CacheNameDistinguishesRequests | tornado_gallery/resizer.py:123-134 | for one gallery and photo, and integral quality and rotation in millionths, different requests get different cache names |
| Resizer.CacheNameShape | tornado_gallery/resizer.py:123-134 | the name starts with `<gallery>-<photo>-` and ends with `.` and the chosen format's extension |
| Resizer.DoResize | tornado_gallery/resizer.py:136-157 | the intended reuse-or-render step; its contract is stated by `DoResizeDecision`, `RenderedFileIsReused` and `NewerSourceForcesRender` |
| Resizer.DoResizeAsWritten | tornado_gallery/resizer.py:136-154 | the step as written; its contract is stated by `DoResizeAsWrittenOnlyReuses` and `FirstRenderFailsAsWritten` |
| Resizer.DoResizeAsWrittenOnlyReuses | tornado_gallery/resizer.py:136-154 | as written a request succeeds exactly when the file is reused; a missing file fails because `cache_node` is unbound, and a stale or empty one fails on the read-only write |
| Resizer.FirstRenderFailsAsWritten | tornado_gallery/resizer.py:138-154 | with an empty cache directory the code as written raises, where the intended step renders and stores the file |
| Resizer.DoResizeDecision | tornado_gallery/resizer.py:136-157 | a cache file is reused iff it exists, is non-empty and is no older than the source; reuse writes nothing; only the request's own file is ever written |
| Resizer.RenderedFileIsReused | tornado_gallery/resizer.py:136-157 | after a non-empty file is rendered no earlier than the source, the same request reuses it |
| Resizer.NewerSourceForcesRender | tornado_gallery/resizer.py:139-141 | a cache file older than the source is rendered again |
| Resizer.Plan | tornado_gallery/resizer.py:58-91 | format then dimension resolution; its contract is stated by `PlanOutcome` |
| Resizer.PlanOutcome | tornado_gallery/resizer.py:58-91 | an unknown format rejects the request first; a resolved key carries the request's gallery, photo, quality and rotation with the resolved format and dimensions |
| Resizer.Semaphore.constructor | tornado_gallery/resizer.py:95 | a new lock has count 1 when created with 1 |
| Resizer.ResizerPool.constructor | tornado_gallery/resizer.py:49 | the lock registry starts empty |
| Resizer.ResizerPool.LockFor | tornado_gallery/resizer.py:89-96 | returns the registered lock for the key, or registers a new lock with count 1; other keys' locks do not change |
| Resizer.ResizerPool.GetResized | tornado_gallery/resizer.py:51-96 | a rejected request leaves the registry untouched; an accepted one gets or creates the lock for its resolved key |
| Photos.SidecarPath | tornado_gallery/photo.py:43-47 | the path of `_meta_node`; its contract is stated by `SidecarPathSwapsExtension` and `SidecarPathIdempotent` |
| Photos.SidecarPathSwapsExtension | tornado_gallery/photo.py:43-47 | a photo's sidecar path is its path with the text after the last dot replaced by `txt` |
| Photos.SidecarPathIdempotent | tornado_gallery/photo.py:46-47 | every path with a dot has a sidecar path, and the sidecar of a sidecar is itself |
| Photos.Annotation | tornado_gallery/photo.py:19-27 | `annotation`; its contract is stated by `AnnotationChain` and `AnnotationFromInfoFile` |
| Photos.AnnotationChain | tornado_gallery/photo.py:19-27 | the own sidecar's `.annotation` wins; the gallery entry named after the file is used only when the own lookup misses; `None` exactly when both miss; the only error that escapes is a malformed file |
| Photos.AnnotationFromInfoFile | tornado_gallery/photo.py:23-27 | with no own sidecar and a well-formed `info.txt`, a photo has an annotation iff some line is keyed by its file name, and it is the value of the last such line |
| Photos.GetMeta | tornado_gallery/photo.py:49-58 | `_get_meta`; its contract is stated by `GetMetaSidecarFirst` |
| Photos.GetMetaSidecarFirst | tornado_gallery/photo.py:49-58 | an existing sidecar alone decides and the gallery is not consulted: a well-formed one gives the key's value or `None`, a malformed one its error, a missing one `None`; without one the `(name, key)` fallback misses, and fails only when `info.txt` is malformed |
| Photos.PreferredWidth | tornado_gallery/photo.py:29-34 | `preferred_width`; its contract is stated by `PreferredSizes` |
| Photos.PreferredHeight | tornado_gallery/photo.py:36-41 | `preferred_height`; its contract is stated by `PreferredSizes` |
| Photos.PreferredSizes | tornado_gallery/photo.py:29-41 | with a well-formed sidecar, preferred width and height are its `.width` / `.height` when present and `None` when absent; in every other case they are `None`, never a KeyError; they fail iff the sidecar is malformed, or there is none and `info.txt` is malformed |
| Galleries.IsImageName | tornado_gallery/gallery.py:71-74 | the extension filter of `content`; its contract is stated by `BuildIndex` |
| Galleries.Insert | tornado_gallery/gallery.py:76-78 | inserting into a name-ordered list keeps it strictly ordered, adds the photo and drops only an entry with the same name |
| Galleries.SortedUnique | tornado_gallery/gallery.py:77-78 | two strictly ordered lists with the same items are equal |
| Galleries.IndexUnique | tornado_gallery/gallery.py:65-80 | the content of a listing is unique: any two lists meeting the content description are equal |
| Galleries.IndexStep | tornado_gallery/gallery.py:69-76 | one loop step keeps the content description for the listing seen so far |
| Galleries.IndexedPhotosHaveExtension | tornado_gallery/gallery.py:69-76 | every photo in the content has a dot in its path, which the sidecar lookup needs |
| Galleries.BuildIndex | tornado_gallery/gallery.py:68-78 | with no dot-less entry, the result has one photo per image entry of the listing, named after it, in strictly ascending name order, and nothing else; otherwise the error names a dot-less entry |
| Galleries.Gallery.constructor | tornado_gallery/gallery.py:39-47 | a new gallery has no content and content time 0 |
| Galleries.Gallery.Content | tornado_gallery/gallery.py:64-80 | rebuilt iff the directory time is strictly later than the recorded one, and then the recorded time becomes the directory time; otherwise the stored list is returned unchanged; a dot-less entry fails the rebuild and leaves the gallery as it was |
| Galleries.Gallery.MetaField | tornado_gallery/gallery.py:82-84 | the entry for the key in the metadata of the gallery's `info.txt`, loaded through the metadata cache; a missing key or failed load is the error |
| Galleries.Gallery.Title | tornado_gallery/gallery.py:56-58 | the `.title` entry of `info.txt`, or the load error or missing key; on success the `info.txt` record is stored again with expiry `now + duration`, and on a failed load the metadata cache is unchanged |
| Galleries.Gallery.Desc | tornado_gallery/gallery.py:60-62 | the `.desc` entry of `info.txt`, or the load error or missing key; on success the `info.txt` record is stored again with expiry `now + duration`, and on a failed load the metadata cache is unchanged |
| Galleries.Registry.constructor | tornado_gallery/gallery.py:37 | the registry starts empty |
| Galleries.Registry.Forget | tornado_gallery/gallery.py:37 | dropping a collected gallery removes its name and nothing else |
| Galleries.NewGallery | tornado_gallery/gallery.py:39-50 | a name already registered is refused and the registry is unchanged; otherwise a new empty gallery is registered under its name and no other entry changes |
| Galleries.GalleryCollection.constructor | tornado_gallery/gallery.py:20-25 | the gallery cache and the metadata cache start empty with the given duration |
| Galleries.GalleryCollection.Fetch | tornado_gallery/gallery.py:27-29 | constructs and registers the gallery for the directory `<root>/<name>` |
| Galleries.GalleryCollection.Get | tornado_gallery/gallery.py:15-29 | a cached gallery is returned without touching the registry; a miss constructs one and caches it, or returns the error and caches nothing |

## Left out

- Typos that would crash are modelled by their evident intent:
  - `time.time()` and `.item()` in `Cache.__iter__` (`cache.py:28-29`);
  - `cache_expiry=` passed to `Cache.__init__`, whose parameter is `cache_duration` (`gallery.py:22`);
  - `cache_expory`, the positional argument after a keyword argument, and the swapped `MetadataCache` arguments in `GalleryCollection` (`gallery.py:23-29`);
  - the undefined `orig_node` in `get_resized` (`resizer.py:61,76`);
  - writing through a file opened with `'rb'` (`resizer.py:154`);
  - in `photo.py`: `self._gallery` used without a call (line 56), `basename` for `base_name` (line 25), indexing the sidecar file node where its parsed metadata is meant (line 22), and `self._gallery()._fs_cache` (line 47), an attribute `Gallery.__init__` never stores, so every sidecar lookup raises AttributeError.
- Resizer.DoResize: `cache_node` is bound only when the cache file exists (`resizer.py:138`), so rendering a missing file fails at `resizer.py:154`; `DoResize` is the intended step, and `DoResizeAsWritten` with the second row under Findings records the code as written.
- Metadata.MetadataCache.constructor: the code stores `None` instead of the `fs_cache` it is given (`metadata.py:25`). The flag `statEnabled` models the intended behaviour; `false` is the code as written, and `NoStatNeverReparses` states what follows from it.
- A missing sidecar or gallery `info.txt` counts as a miss in the photo lookups. With a file-system cache, its stat lookup raises KeyError, which the lookups catch. A malformed file raises ValueError, which they do not catch; the model returns it as the error.
- Text.Lower: maps only ASCII `A`-`Z`, where Python's `str.lower()` also lower-cases other letters and can lengthen a string (U+0130 becomes two characters). `IsImageName` is unaffected: the only non-ASCII characters whose lower-case form contains an ASCII letter are U+0130 (to `i` and a combining dot) and U+212A (to `k`), and no extension on the list can be produced from them.
- The clock is read once per operation: `purge` calls `time()` again for each entry (`cache.py:41`, `metadata.py:62`), and `__getitem__` reads it after the loader returns (`cache.py:24`); the model uses one `now` for the whole call.
- Resizer.CacheName: the source joins the name onto the cache directory's path; the model keeps the base name, which is the key of the cache directory map.
- Concurrency is not modelled: acquiring and releasing the semaphore, `multiprocessing.Pool` dispatch, and all of `pool.py`. Only the get-or-create of the lock registry is modelled.
- Weak references: the registries hold their entries strongly. Collection of an unused gallery is the explicit `Registry.Forget`, and the lock registry never drops entries.
- The image library, libmagic, `realpath`, `open`, `stat`, the `cachefs` nodes and `time()` are parameters. The bytes of a rendered file are reduced to its size.
- Floating point:
  - `ratio >= 1.0` is `raw_width >= raw_height`;
  - `int(width / ratio)` is the exact truncated quotient `width * raw_height / raw_width`, which can differ by one from the IEEE result;
  - durations, timestamps and quality are integers;
  - rotation is an integer number of millionths of a degree, the precision of its `%.6f` field.
- Resizer.CacheNameDistinguishesRequests: proved only for one fixed gallery and photo, integral quality and rotation in whole millionths of a degree. Gallery and photo names may contain `-`, so requests for different photos can share a name. The HTTP handler (`server.py:145-146`) passes quality and rotation as floats, and its route accepts a fractional quality such as `@60.5`. `%d` truncates the quality, so 60 and 60.5 share a name, and `%.6f` rounds rotations that differ by less than a millionth to the same text. Such requests differ as lock keys (`resizer.py:89-96`) but name the same cache file, so two renders of one file can run under different semaphores.
- Default arguments are not modelled: `cache_duration=300.0` of `Cache` and `MetadataCache` (`cache.py:12`, `metadata.py:22`), and `quality=60`, `rotation=0.0` and the other defaults of `get_resized` (`resizer.py:52-54`). The two cache constructors and `GetResized` take these values as explicit arguments.
- Behaviour described for the system but absent from the code is not modelled. The code is followed instead:
  - EXIF orientation, user rotation and colour conversion;
  - a bounding-box fit with round-half-up when both dimensions are given (the code passes both through unchanged);
  - stripping the extension from the photo id in cache names (the code keeps it);
  - sectioned sidecars with concatenated values (`parse_meta` is flat, and the last line wins);
  - default titles for a missing sidecar (the code raises, modelled as an error).
- `server.py`, the JavaScript files and `setup.py` are not part of this model.

## Findings

| source | as written | input that shows it | evidently intended | confidence | as-written member | corrected member |
|---|---|---|---|---|---|---|
| tornado_gallery/resizer.py:82-87 | when only the height is given and the source is landscape or square, the first branch computes `int(width / ratio)` with `width` None | width None, height 600, source 4000x3000 raises TypeError | keep the given height and derive width 800 | not executed | Resizer.HeightOnlyLandscapeFails | Resizer.DerivedSideIsProportional |
| tornado_gallery/resizer.py:137-154 | `cache_node` is bound only when the cache file already exists, and the rendition is written through a file opened with `'rb'` | a first request for any rendition (empty cache directory) raises UnboundLocalError at line 154 | render the image, write it to the cache file and return it | not executed | Resizer.FirstRenderFailsAsWritten | Resizer.DoResizeDecision |
