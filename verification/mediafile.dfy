/**
  Package `model`: `TheFile` with its name split, `TheDirectory` with its name split and
  listing cache. The chunk and hash operations of `TheFile` are those of `Chunks` on its
  `body`; the path-token codec of the same package is `PathToken`.
 */
module MediaFile {
  import opened Wrappers
  import opened GoStrings
  import opened Chunks
  import opened FsInput
  import ListingCache

  datatype TheFile = TheFile(parentPath: GoString, name: GoString, filePath: GoString, body: Chunked)

  datatype TheDirectory = TheDirectory(
    parentPath: GoString,
    name: GoString,
    dirPath: GoString,
    cache: ListingCache.Cache<TheFile, TheDirectory>)

  /** `DirPath + "/" + name`, the path `ListFiles` and `ListDirectories` open. */
  function ChildPath(dirPath: GoString, name: GoString): GoString {
    dirPath + [Slash] + name
  }

  /**
    `NewTheFile`: loads the content, then splits the path at its last separator. A path
    without a separator would be sliced at -1, a panic, hence the precondition.
   */
  function NewTheFile(filePath: GoString, probe: FileProbe): (r: Result<TheFile, LoadError>)
    requires LoadContent(probe).Ok? ==> Slash in filePath
    ensures r.Err? <==> LoadContent(probe).Err?
    ensures r.Err? ==> r.error == LoadContent(probe).error
    ensures r.Ok? ==> r.value.filePath == filePath && r.value.body == Chunked(probe.read, DefaultChunkSize)
    ensures r.Ok? ==> r.value.parentPath + [Slash] + r.value.name == filePath && Slash !in r.value.name
  {
    var content :- LoadContent(probe);
    var k := LastIndex(filePath, Slash);
    assert filePath == filePath[..k] + [Slash] + filePath[k + 1..];
    Ok(TheFile(filePath[..k], filePath[k + 1..], filePath, Chunked(content, DefaultChunkSize)))
  }

  /** `SetChunkInfo`: only the chunk size changes. */
  function SetChunkInfo(f: TheFile, newChunkSize: int): (r: TheFile)
    ensures r.body.chunkSize == newChunkSize
    ensures r.body.content == f.body.content
    ensures r.filePath == f.filePath && r.parentPath == f.parentPath && r.name == f.name
  {
    f.(body := Chunks.SetChunkInfo(f.body, newChunkSize))
  }

  /**
    `NewTheDirectory`: fails when the path cannot be listed. A separator after the first
    byte splits the path into parent and name; otherwise the parent is "/" and the name is
    the whole path.
   */
  function NewTheDirectory(path: GoString, readable: bool): (r: Result<TheDirectory, ListingCache.ListError>)
    ensures r.Err? <==> !readable
    ensures r.Ok? ==> r.value.dirPath == path && r.value.cache == ListingCache.Fresh()
    ensures r.Ok? && |path| > 0 && Slash in path[1..] ==>
              r.value.parentPath + [Slash] + r.value.name == path && Slash !in r.value.name && |r.value.parentPath| > 0
    ensures r.Ok? && !(|path| > 0 && Slash in path[1..]) ==> r.value.parentPath == [Slash] && r.value.name == path
  {
    if !readable then Err(ListingCache.ReadDirFailed)
    else
      var k := LastIndex(path, Slash);
      LastIndexPositive(path);
      if k > 0 then
        assert path == path[..k] + [Slash] + path[k + 1..];
        Ok(TheDirectory(path[..k], path[k + 1..], path, ListingCache.Fresh()))
      else
        Ok(TheDirectory([Slash], path, path, ListingCache.Fresh()))
  }

  lemma LastIndexPositive(path: GoString)
    ensures LastIndex(path, Slash) > 0 <==> |path| > 0 && Slash in path[1..]
  {
    var k := LastIndex(path, Slash);
    if |path| > 0 && Slash in path[1..] {
      var j :| 0 <= j < |path[1..]| && path[1..][j] == Slash;
      assert path[j + 1] == Slash;
    }
  }

  /** The last separator of a child path is the one `ChildPath` inserted. */
  lemma LastIndexOfChild(dirPath: GoString, name: GoString)
    requires Slash !in name
    ensures LastIndex(ChildPath(dirPath, name), Slash) == |dirPath|
  {
    var p := ChildPath(dirPath, name);
    var k := LastIndex(p, Slash);
    assert p[|dirPath|] == Slash;
  }

  /** The files a scan yields, in scan order: one per non-directory entry that loads. */
  function LoadFiles(dirPath: GoString, entries: seq<Entry>): (files: seq<TheFile>)
    ensures |files| == |FileEntries(entries)|
    ensures forall i :: 0 <= i < |files| ==> FileLoadedFrom(dirPath, FileEntries(entries)[i], files[i])
    decreases |entries|
  {
    if |entries| == 0 then []
    else
      var e := entries[0];
      var rest := LoadFiles(dirPath, entries[1..]);
      if e.isDir then rest
      else
        var path := ChildPath(dirPath, e.name);
        assert path[|dirPath|] == Slash;
        match NewTheFile(path, e.file)
        case Err(_) => rest
        case Ok(f) =>
          FilesCons(dirPath, entries, f, rest);
          [f] + rest
  }

  /** A loaded head entry followed by the files of the remaining entries lists the files of all of them. */
  lemma FilesCons(dirPath: GoString, entries: seq<Entry>, f: TheFile, rest: seq<TheFile>)
    requires |entries| > 0 && !entries[0].isDir && LoadContent(entries[0].file).Ok?
    requires FileLoadedFrom(dirPath, entries[0], f)
    requires |rest| == |FileEntries(entries[1..])|
    requires forall i :: 0 <= i < |rest| ==> FileLoadedFrom(dirPath, FileEntries(entries[1..])[i], rest[i])
    ensures |[f] + rest| == |FileEntries(entries)|
    ensures forall i :: 0 <= i < |[f] + rest| ==> FileLoadedFrom(dirPath, FileEntries(entries)[i], ([f] + rest)[i])
  {
    FileEntriesCons(entries);
  }

  /**
    `f` is the entity `NewTheFile` builds for entry `e` of the directory at `dirPath`: its
    path is the child path, split at its last separator, and its content the entry's bytes.
   */
  predicate FileLoadedFrom(dirPath: GoString, e: Entry, f: TheFile) {
    && f.filePath == ChildPath(dirPath, e.name)
    && f.body == Chunked(e.file.read, DefaultChunkSize)
    && f.parentPath + [Slash] + f.name == f.filePath
    && Slash !in f.name
  }

  /** A listed file's parent is the directory and its name the entry's, entry names holding no separator. */
  lemma ListedFileNames(dirPath: GoString, entries: seq<Entry>, i: int)
    requires 0 <= i < |LoadFiles(dirPath, entries)|
    requires Slash !in FileEntries(entries)[i].name
    ensures LoadFiles(dirPath, entries)[i].parentPath == dirPath
    ensures LoadFiles(dirPath, entries)[i].name == FileEntries(entries)[i].name
  {
    var e := FileEntries(entries)[i];
    var f := LoadFiles(dirPath, entries)[i];
    assert FileLoadedFrom(dirPath, e, f);
    SplitAtLastSlash(f.parentPath, f.name, dirPath, e.name);
  }

  /** Two ways of writing a path as `parent "/" name` with a separator-free name coincide. */
  lemma SplitAtLastSlash(a: GoString, b: GoString, c: GoString, d: GoString)
    requires a + [Slash] + b == c + [Slash] + d
    requires Slash !in b && Slash !in d
    ensures a == c && b == d
  {
    var p := a + [Slash] + b;
    assert p[|a|] == Slash && p[|c|] == Slash;
    assert a == p[..|a|] && c == p[..|c|];
    assert b == p[|a| + 1..] && d == p[|c| + 1..];
  }

  /** The directory's path is its parent, a separator, and a name without separators. */
  predicate NameSplit(d: TheDirectory) {
    d.parentPath + [Slash] + d.name == d.dirPath && Slash !in d.name
  }

  /** A child of a non-empty path has a separator after its first byte, so `NewTheDirectory` splits it. */
  lemma ChildPathHasInnerSlash(dirPath: GoString, name: GoString)
    ensures |dirPath| > 0 ==> Slash in ChildPath(dirPath, name)[1..]
  {
    if |dirPath| > 0 {
      assert ChildPath(dirPath, name)[1..][|dirPath| - 1] == Slash;
    }
  }

  /** The directories a scan yields, in scan order: one per directory entry that can be listed. */
  function LoadDirectories(dirPath: GoString, entries: seq<Entry>): (dirs: seq<TheDirectory>)
    ensures |dirs| == |DirEntries(entries)|
    ensures forall i :: 0 <= i < |dirs| ==> DirLoadedFrom(dirPath, DirEntries(entries)[i], dirs[i])
    decreases |entries|
  {
    if |entries| == 0 then []
    else
      var e := entries[0];
      var rest := LoadDirectories(dirPath, entries[1..]);
      if !e.isDir then rest
      else
        match NewTheDirectory(ChildPath(dirPath, e.name), e.dirReadable)
        case Err(_) => rest
        case Ok(d) =>
          assert DirEntries(entries) == [e] + DirEntries(entries[1..]);
          [d] + rest
  }

  /** `d` is the entity `NewTheDirectory` builds for entry `e` of the directory at `dirPath`. */
  predicate DirLoadedFrom(dirPath: GoString, e: Entry, d: TheDirectory) {
    d.dirPath == ChildPath(dirPath, e.name) && d.cache == ListingCache.Fresh()
  }

  /** Every subdirectory listed under a non-empty path is split into parent and name. */
  lemma {:induction false} LoadedDirectoriesSplit(dirPath: GoString, entries: seq<Entry>)
    requires |dirPath| > 0
    ensures forall i :: 0 <= i < |LoadDirectories(dirPath, entries)| ==> NameSplit(LoadDirectories(dirPath, entries)[i])
    decreases |entries|
  {
    if |entries| > 0 {
      LoadedDirectoriesSplit(dirPath, entries[1..]);
      var e := entries[0];
      ChildPathHasInnerSlash(dirPath, e.name);
    }
  }

  /** A listed subdirectory of a non-root-relative directory has that directory as parent and the entry's name. */
  lemma ListedDirectoryNames(dirPath: GoString, entries: seq<Entry>, i: int)
    requires |dirPath| > 0
    requires 0 <= i < |LoadDirectories(dirPath, entries)|
    requires Slash !in DirEntries(entries)[i].name
    ensures LoadDirectories(dirPath, entries)[i].parentPath == dirPath
    ensures LoadDirectories(dirPath, entries)[i].name == DirEntries(entries)[i].name
  {
    var e := DirEntries(entries)[i];
    var d := LoadDirectories(dirPath, entries)[i];
    LoadedDirectoriesSplit(dirPath, entries);
    SplitAtLastSlash(d.parentPath, d.name, dirPath, e.name);
  }

  /** The entity lists a scan yields, or `None` when `os.ReadDir` failed. */
  function ScannedFiles(dirPath: GoString, scan: Option<seq<Entry>>): Option<seq<TheFile>> {
    if scan.None? then None else Some(LoadFiles(dirPath, scan.value))
  }

  function ScannedDirectories(dirPath: GoString, scan: Option<seq<Entry>>): Option<seq<TheDirectory>> {
    if scan.None? then None else Some(LoadDirectories(dirPath, scan.value))
  }

  /**
    `ListFiles`: the stored list while the guard holds back, else a rescan that keeps the
    loadable non-directory entries and stores them with `now`; a failed `os.ReadDir`
    changes nothing.
   */
  function ListFiles(d: TheDirectory, now: int, scan: Option<seq<Entry>>): (r: (TheDirectory, Result<seq<TheFile>, ListingCache.ListError>))
    ensures r.0.dirPath == d.dirPath && r.0.parentPath == d.parentPath && r.0.name == d.name
    ensures !ListingCache.Rescans(d.cache, now) ==> r == (d, Ok(d.cache.files.value))
    ensures ListingCache.Rescans(d.cache, now) && scan.None? ==> r == (d, Err(ListingCache.ReadDirFailed))
    ensures ListingCache.Rescans(d.cache, now) && scan.Some? ==>
              && r.1 == Ok(LoadFiles(d.dirPath, scan.value))
              && r.0.cache == ListingCache.Cache(Some(r.1.value), d.cache.directories, now)
  {
    var (c, res) := ListingCache.ListFiles(d.cache, now, ScannedFiles(d.dirPath, scan));
    (d.(cache := c), res)
  }

  /** `ListDirectories`, with the guard on `files` as written. */
  function ListDirectories(d: TheDirectory, now: int, scan: Option<seq<Entry>>)
    : (r: (TheDirectory, Result<seq<TheDirectory>, ListingCache.ListError>))
    ensures r.0.dirPath == d.dirPath && r.0.parentPath == d.parentPath && r.0.name == d.name
    ensures !ListingCache.Rescans(d.cache, now) ==> r == (d, Ok(d.cache.directories.GetOr([])))
    ensures ListingCache.Rescans(d.cache, now) && scan.None? ==> r == (d, Err(ListingCache.ReadDirFailed))
    ensures ListingCache.Rescans(d.cache, now) && scan.Some? ==>
              && r.1 == Ok(LoadDirectories(d.dirPath, scan.value))
              && r.0.cache == ListingCache.Cache(d.cache.files, Some(r.1.value), now)
  {
    var (c, res) := ListingCache.ListDirectories(d.cache, now, ScannedDirectories(d.dirPath, scan));
    (d.(cache := c), res)
  }

  /** `ListAll`: directories, then files, each from its own `os.ReadDir`. */
  function ListAll(d: TheDirectory, now: int, dirScan: Option<seq<Entry>>, fileScan: Option<seq<Entry>>)
    : (r: (TheDirectory, Result<(seq<TheFile>, seq<TheDirectory>), ListingCache.ListError>))
    ensures r.0.dirPath == d.dirPath
    ensures var (d1, rd) := ListDirectories(d, now, dirScan);
            var (d2, rf) := ListFiles(d1, now, fileScan);
            && (r.1.Err? <==> rd.Err? || rf.Err?)
            && (r.1.Ok? ==> r.1.value == (rf.value, rd.value) && r.0 == d2)
  {
    var (c, res) := ListingCache.ListAll(d.cache, now, ScannedDirectories(d.dirPath, dirScan), ScannedFiles(d.dirPath, fileScan));
    (d.(cache := c), res)
  }

  /** On a new directory, `ListAll` returns every loadable file and every listable subdirectory. */
  lemma ListAllOnNewDirectory(path: GoString, now: int, dirEntries: seq<Entry>, fileEntries: seq<Entry>)
    requires NewTheDirectory(path, true).Ok?
    ensures var d := NewTheDirectory(path, true).value;
            var r := ListAll(d, now, Some(dirEntries), Some(fileEntries)).1;
            && r.Ok?
            && |r.value.0| == |FileEntries(fileEntries)|
            && |r.value.1| == |DirEntries(dirEntries)|
  {
    var d := NewTheDirectory(path, true).value;
    ListingCache.ListAllFromFresh<TheFile, TheDirectory>(now, LoadDirectories(path, dirEntries), LoadFiles(path, fileEntries));
  }
}
