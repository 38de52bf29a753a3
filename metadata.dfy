/**
 * Sidecar metadata, tornado_gallery/metadata.py.
 *
 * A sidecar file holds one `key<TAB>value` pair per line; `parse_meta`
 * turns its lines into a flat dictionary, later lines overwriting earlier
 * ones. `MetadataCache` keeps one parsed dictionary per canonical path,
 * stamped with the file modification time seen when it was parsed and
 * with a sliding expiry, and parses again only when the current
 * modification time differs from the stamp.
 *
 * The file system is a map from canonical path to the file's modification
 * time and lines (each line as Python's text iteration yields it, with its
 * newline); `realpath` is a function parameter and the clock is `now`.
 */
module Metadata {
  import opened Wrappers
  import opened Text
  import opened ExpiringCache

  type Meta = map<string, string>

  datatype MetaError =
    | MissingFile(path: string)   // the file is not there (KeyError from the stat, or the failing open)
    | NoTab(line: string)         // dict() given a one-element split (ValueError)

  /** `line.split('\t', 1)` when it has two parts. */
  function SplitTab(line: string): Option<(string, string)>
  {
    match IndexOf(line, '\t')
    case None => None
    case Some(i) => Some((line[..i], line[i + 1..]))
  }

  /**
   * The key is the text before the first tab, the value everything after
   * it (later tabs and the trailing newline included); a line without a
   * tab does not split.
   */
  lemma SplitTabSound(line: string)
    ensures SplitTab(line).None? <==> '\t' !in line
    ensures SplitTab(line).Some? ==>
      var (key, value) := SplitTab(line).value;
      line == key + "\t" + value && '\t' !in key
  {
    match IndexOf(line, '\t')
    case None =>
    case Some(i) =>
      assert line == line[..i] + "\t" + line[i + 1..];
      forall j | 0 <= j < i ensures line[..i][j] != '\t' {
      }
  }

  /** Conversely, any tab-free key, a tab and any value split back into that key and value. */
  lemma {:induction false} SplitTabOfJoin(key: string, value: string)
    requires '\t' !in key
    ensures SplitTab(key + "\t" + value) == Some((key, value))
  {
    var line := key + "\t" + value;
    assert line[|key|] == '\t';
    match IndexOf(line, '\t')
    case None =>
      assert false;
    case Some(i) =>
      if i < |key| {
        assert false;
      }
      assert line[..i] == key;
      assert line[i + 1..] == value;
  }

  predicate KeyedBy(line: string, key: string)
  {
    SplitTab(line).Some? && SplitTab(line).value.0 == key
  }

  /**
   * `parse_meta`: the dictionary built from the file's lines, a later line
   * replacing the value of an earlier line with the same key. The first
   * line without a tab makes the whole parse fail.
   */
  function ParseMeta(lines: seq<string>): Result<Meta, MetaError>
  {
    if lines == [] then Ok(map[])
    else
      match ParseMeta(lines[..|lines| - 1])
      case Err(e) => Err(e)
      case Ok(d) =>
        match SplitTab(lines[|lines| - 1])
        case None => Err(NoTab(lines[|lines| - 1]))
        case Some((key, value)) => Ok(d[key := value])
  }

  /** Parsing fails exactly when some line has no tab. */
  lemma {:induction false} ParseMetaFails(lines: seq<string>)
    ensures ParseMeta(lines).Err? <==> exists i :: 0 <= i < |lines| && '\t' !in lines[i]
  {
    if lines != [] {
      var init := lines[..|lines| - 1];
      ParseMetaFails(init);
      SplitTabSound(lines[|lines| - 1]);
      if exists i :: 0 <= i < |init| && '\t' !in init[i] {
        var i :| 0 <= i < |init| && '\t' !in init[i];
        assert lines[i] == init[i];
      }
      if exists i :: 0 <= i < |lines| && '\t' !in lines[i] {
        var i :| 0 <= i < |lines| && '\t' !in lines[i];
        if i < |init| {
          assert init[i] == lines[i];
        }
      }
    }
  }

  /** Every key of a parsed file comes from some line of it, and every line's key is present. */
  lemma {:induction false} ParseMetaKeys(lines: seq<string>, key: string)
    requires ParseMeta(lines).Ok?
    ensures key in ParseMeta(lines).value <==> exists i :: 0 <= i < |lines| && KeyedBy(lines[i], key)
  {
    if lines != [] {
      var init := lines[..|lines| - 1];
      ParseMetaKeys(init, key);
      if exists i :: 0 <= i < |init| && KeyedBy(init[i], key) {
        var i :| 0 <= i < |init| && KeyedBy(init[i], key);
        assert lines[i] == init[i];
      }
      if exists i :: 0 <= i < |lines| && KeyedBy(lines[i], key) {
        var i :| 0 <= i < |lines| && KeyedBy(lines[i], key);
        if i < |init| {
          assert init[i] == lines[i];
        }
      }
    }
  }

  /** The value kept for a key is the one on the last line carrying that key. */
  lemma {:induction false} ParseMetaLastWins(lines: seq<string>, i: nat)
    requires ParseMeta(lines).Ok? && i < |lines| && SplitTab(lines[i]).Some?
    requires forall j :: i < j < |lines| ==> !KeyedBy(lines[j], SplitTab(lines[i]).value.0)
    ensures var (key, value) := SplitTab(lines[i]).value;
      key in ParseMeta(lines).value && ParseMeta(lines).value[key] == value
  {
    var init := lines[..|lines| - 1];
    if i < |lines| - 1 {
      assert init[i] == lines[i];
      forall j | i < j < |init| ensures !KeyedBy(init[j], SplitTab(init[i]).value.0) {
        assert init[j] == lines[j];
      }
      ParseMetaLastWins(init, i);
    }
  }

  /** A sidecar file as the file system presents it. */
  datatype SidecarFile = SidecarFile(mtime: int, lines: seq<string>)

  /** A parsed file together with the modification time it was parsed at. */
  datatype Stamped = Stamped(mtime: int, data: Meta)

  /**
   * The modification time `__getitem__` compares against: the file's own
   * when a file-system cache is configured (missing file: KeyError), and
   * the constant 0 otherwise.
   */
  function CurrentMtime(statEnabled: bool, disk: map<string, SidecarFile>, canon: string): Result<int, MetaError>
  {
    if !statEnabled then Ok(0)
    else if canon in disk then Ok(disk[canon].mtime)
    else Err(MissingFile(canon))
  }

  /**
   * The reparse decision: a cached record whose stamp equals the current
   * modification time is served as it is; otherwise the file is read and
   * parsed again and stamped with the current time.
   */
  function Load(canon: string, cached: Option<Stamped>, mtimeNow: int, file: Option<SidecarFile>): Result<Stamped, MetaError>
  {
    if cached.Some? && cached.value.mtime == mtimeNow then Ok(cached.value)
    else if file.None? then Err(MissingFile(canon))
    else
      match ParseMeta(file.value.lines)
      case Err(e) => Err(e)
      case Ok(d) => Ok(Stamped(mtimeNow, d))
  }

  /** What `__getitem__` yields for canonical path `canon`, given the cached records and the disk. */
  function Fetch(files: map<string, Entry<Stamped>>, canon: string, statEnabled: bool,
                 disk: map<string, SidecarFile>): Result<Stamped, MetaError>
  {
    match CurrentMtime(statEnabled, disk, canon)
    case Err(e) => Err(e)
    case Ok(t) =>
      Load(canon, if canon in files then Some(files[canon].value) else None, t,
           if canon in disk then Some(disk[canon]) else None)
  }

  /** A record whose stamp matches the current modification time is served without reading the file. */
  lemma ServedWhenStampMatches(files: map<string, Entry<Stamped>>, canon: string, statEnabled: bool,
                               disk: map<string, SidecarFile>, disk': map<string, SidecarFile>)
    requires canon in files
    requires CurrentMtime(statEnabled, disk, canon) == Ok(files[canon].value.mtime)
    requires CurrentMtime(statEnabled, disk', canon) == CurrentMtime(statEnabled, disk, canon)
    ensures Fetch(files, canon, statEnabled, disk) == Ok(files[canon].value)
    ensures Fetch(files, canon, statEnabled, disk') == Fetch(files, canon, statEnabled, disk)
  {
  }

  /**
   * When the record is absent or its stamp differs from the current time,
   * earlier or later alike, the file is parsed again and the new record
   * carries the current time.
   */
  lemma ReparsedWhenStampDiffers(files: map<string, Entry<Stamped>>, canon: string, statEnabled: bool,
                                 disk: map<string, SidecarFile>, t: int)
    requires CurrentMtime(statEnabled, disk, canon) == Ok(t)
    requires canon !in files || files[canon].value.mtime != t
    ensures canon !in disk ==> Fetch(files, canon, statEnabled, disk) == Err(MissingFile(canon))
    ensures canon in disk ==>
      match ParseMeta(disk[canon].lines)
      case Err(e) => Fetch(files, canon, statEnabled, disk) == Err(e)
      case Ok(d) => Fetch(files, canon, statEnabled, disk) == Ok(Stamped(t, d))
  {
  }

  /**
   * Without a file-system cache every record is stamped 0 and the current
   * time is always 0, so a record, once loaded, is served whatever the
   * file now holds, until it is purged.
   */
  lemma NoStatNeverReparses(files: map<string, Entry<Stamped>>, canon: string,
                            disk: map<string, SidecarFile>)
    requires forall p :: p in files ==> files[p].value.mtime == 0
    requires canon in files
    ensures Fetch(files, canon, false, disk) == Ok(files[canon].value)
  {
  }

  /** `MetadataCache`: the dictionary `_file` of (expiry, mtime, data) records. */
  class MetadataCache {
    const duration: int
    /** Whether a file-system cache supplies modification times (`_fs_cache is not None`). */
    const statEnabled: bool
    var files: map<string, Entry<Stamped>>

    /** Without a file-system cache every stored record is stamped 0. */
    ghost predicate Valid()
      reads this
    {
      !statEnabled ==> forall p :: p in files ==> files[p].value.mtime == 0
    }

    /**
     * As written the constructor stores `None` in `_fs_cache` whatever it
     * is given; `statEnabled` models the evident intent of storing the
     * argument, and `false` reproduces the code as written.
     */
    constructor (duration: int, statEnabled: bool)
      ensures Valid()
      ensures this.duration == duration && this.statEnabled == statEnabled && files == map[]
    {
      this.duration := duration;
      this.statEnabled := statEnabled;
      files := map[];
    }

    /**
     * `__getitem__`: canonicalise the path, serve the cached record when
     * its stamp matches the current modification time, otherwise parse the
     * file; on success the record for the canonical path is stored again
     * with expiry `now + duration`, and on failure nothing changes.
     */
    method Get(path: string, now: int, realpath: string -> string, disk: map<string, SidecarFile>)
      returns (r: Result<Meta, MetaError>)
      requires Valid()
      modifies this
      ensures Valid()
      ensures var f := Fetch(old(files), realpath(path), statEnabled, disk);
        && (f.Ok? ==> r == Ok(f.value.data) && files == old(files)[realpath(path) := Entry(now + duration, f.value)])
        && (f.Err? ==> r == Err(f.error) && files == old(files))
    {
      var canon := realpath(path);
      var mtimeNow := 0;
      if statEnabled {
        if canon !in disk {
          return Err(MissingFile(canon));
        }
        mtimeNow := disk[canon].mtime;
      }
      if canon in files && files[canon].value.mtime == mtimeNow {
        // Still current: refresh the expiry and serve the cached data.
        var data := files[canon].value.data;
        StoreFile(canon, now, mtimeNow, data);
        return Ok(data);
      }
      if canon !in disk {
        return Err(MissingFile(canon));
      }
      var parsed := ParseMeta(disk[canon].lines);
      if parsed.Err? {
        return Err(parsed.error);
      }
      StoreFile(canon, now, mtimeNow, parsed.value);
      r := Ok(parsed.value);
    }

    /** `_store_file`: record `(now + duration, mtime, data)` for `canon`. */
    method StoreFile(canon: string, now: int, mtime: int, data: Meta)
      modifies this
      ensures files == old(files)[canon := Entry(now + duration, Stamped(mtime, data))]
    {
      files := files[canon := Entry(now + duration, Stamped(mtime, data))];
    }

    /** `purge`: drops exactly the records whose expiry is before `now`. */
    method Purge(now: int)
      requires Valid()
      modifies this
      ensures Valid()
      ensures files == Unexpired(old(files), now)
    {
      files := PurgeExpired(files, now);
    }
  }
}
