/**
  Package `logic`: a second copy of the file and directory entities, exercised only by its
  own test. `TheFile` keeps only its path, content and chunk size; `TheDirectory` only its
  path and listing cache. The chunk and hash operations are those of `Chunks`, and the
  listing guard that of `ListingCache`.
 */
module ServerLogic {
  import opened Wrappers
  import opened GoStrings
  import opened Chunks
  import opened FsInput
  import ListingCache
  import MediaFile

  /** The chunk size `NewTheFile` sets, as a literal rather than a named constant. */
  const InitialChunkSize: int := 100000

  datatype TheFile = TheFile(filePath: GoString, body: Chunked)

  datatype TheDirectory = TheDirectory(dirPath: GoString, cache: ListingCache.Cache<TheFile, TheDirectory>)

  /** `NewTheFile`: the same checks as the `model` package, without splitting the path. */
  function NewTheFile(filePath: GoString, probe: FileProbe): (r: Result<TheFile, LoadError>)
    ensures r.Err? <==> LoadContent(probe).Err?
    ensures r.Err? ==> r.error == LoadContent(probe).error
    ensures r.Ok? ==> r.value.filePath == filePath && r.value.body.content == probe.read
    ensures r.Ok? ==> r.value.body.chunkSize == InitialChunkSize
  {
    var content :- LoadContent(probe);
    Ok(TheFile(filePath, Chunked(content, InitialChunkSize)))
  }

  /** `SetChunkInfo`: only the chunk size changes. */
  function SetChunkInfo(f: TheFile, newChunkSize: int): (r: TheFile)
    ensures r.filePath == f.filePath && r.body.content == f.body.content
    ensures r.body.chunkSize == newChunkSize
  {
    f.(body := Chunks.SetChunkInfo(f.body, newChunkSize))
  }

  /**
    Both packages load the same files the same way: wherever the `model` constructor may be
    called, the two succeed together, fail with the same error, and keep the same path,
    content and chunk size, so every chunk and hash operation answers alike. The `logic`
    constructor also accepts a path without a separator.
   */
  lemma NewTheFileAgrees(filePath: GoString, probe: FileProbe)
    requires LoadContent(probe).Ok? ==> Slash in filePath
    ensures var l := NewTheFile(filePath, probe);
            var m := MediaFile.NewTheFile(filePath, probe);
            && (l.Err? <==> m.Err?)
            && (l.Err? ==> l.error == m.error)
            && (l.Ok? ==> l.value.filePath == m.value.filePath && l.value.body == m.value.body)
  {
  }

  /** `NewTheDirectory`: fails when the path cannot be listed; keeps the path as given. */
  function NewTheDirectory(path: GoString, readable: bool): (r: Result<TheDirectory, ListingCache.ListError>)
    ensures r.Err? <==> !readable
    ensures r.Ok? ==> r.value.dirPath == path && r.value.cache == ListingCache.Fresh()
  {
    if readable then Ok(TheDirectory(path, ListingCache.Fresh())) else Err(ListingCache.ReadDirFailed)
  }

  /** The files a scan yields, in scan order: one per non-directory entry that loads. */
  function LoadFiles(dirPath: GoString, entries: seq<Entry>): (files: seq<TheFile>)
    ensures |files| == |FileEntries(entries)|
    ensures forall i :: 0 <= i < |files| ==> FileLoadedFrom(dirPath, FileEntries(entries)[i], files[i])
    decreases |entries|
  {
    if |entries| == 0 then []
    else
      var e := entries[0];
      var rest := LoadFiles(dirPath, entries[1..]);
      if e.isDir then rest
      else
        match NewTheFile(MediaFile.ChildPath(dirPath, e.name), e.file)
        case Err(_) => rest
        case Ok(f) =>
          FileEntriesCons(entries);
          [f] + rest
  }

  /** `f` is the entity `NewTheFile` builds for entry `e` of the directory at `dirPath`. */
  predicate FileLoadedFrom(dirPath: GoString, e: Entry, f: TheFile) {
    f.filePath == MediaFile.ChildPath(dirPath, e.name) && f.body == Chunked(e.file.read, InitialChunkSize)
  }

  /** The directories a scan yields, in scan order: one per directory entry that can be listed. */
  function LoadDirectories(dirPath: GoString, entries: seq<Entry>): (dirs: seq<TheDirectory>)
    ensures |dirs| == |DirEntries(entries)|
    ensures forall i :: 0 <= i < |dirs| ==> dirs[i] == DirectoryOf(dirPath, DirEntries(entries)[i])
    decreases |entries|
  {
    if |entries| == 0 then []
    else
      var e := entries[0];
      var rest := LoadDirectories(dirPath, entries[1..]);
      if !e.isDir then rest
      else
        match NewTheDirectory(MediaFile.ChildPath(dirPath, e.name), e.dirReadable)
        case Err(_) => rest
        case Ok(d) =>
          assert DirEntries(entries) == [e] + DirEntries(entries[1..]);
          [d] + rest
  }

  /** The entity `NewTheDirectory` builds for entry `e` of the directory at `dirPath`. */
  function DirectoryOf(dirPath: GoString, e: Entry): TheDirectory {
    TheDirectory(MediaFile.ChildPath(dirPath, e.name), ListingCache.Fresh())
  }

  /**
    A scan lists the same files in both packages: entry by entry, the same paths and the same
    content, so a `logic` listing matches the `model` one.
   */
  lemma LoadFilesAgrees(dirPath: GoString, entries: seq<Entry>)
    ensures |LoadFiles(dirPath, entries)| == |MediaFile.LoadFiles(dirPath, entries)|
    ensures forall i :: 0 <= i < |LoadFiles(dirPath, entries)| ==>
              LoadFiles(dirPath, entries)[i].filePath == MediaFile.LoadFiles(dirPath, entries)[i].filePath &&
              LoadFiles(dirPath, entries)[i].body == MediaFile.LoadFiles(dirPath, entries)[i].body
  {
  }

  function ScannedFiles(dirPath: GoString, scan: Option<seq<Entry>>): Option<seq<TheFile>> {
    if scan.None? then None else Some(LoadFiles(dirPath, scan.value))
  }

  function ScannedDirectories(dirPath: GoString, scan: Option<seq<Entry>>): Option<seq<TheDirectory>> {
    if scan.None? then None else Some(LoadDirectories(dirPath, scan.value))
  }

  /** `ListFiles`: the stored list while the guard holds back, else a rescan stored with `now`. */
  function ListFiles(d: TheDirectory, now: int, scan: Option<seq<Entry>>): (r: (TheDirectory, Result<seq<TheFile>, ListingCache.ListError>))
    ensures r.0.dirPath == d.dirPath
    ensures !ListingCache.Rescans(d.cache, now) ==> r == (d, Ok(d.cache.files.value))
    ensures ListingCache.Rescans(d.cache, now) && scan.None? ==> r == (d, Err(ListingCache.ReadDirFailed))
    ensures ListingCache.Rescans(d.cache, now) && scan.Some? ==>
              && r.1 == Ok(LoadFiles(d.dirPath, scan.value))
              && r.0.cache == ListingCache.Cache(Some(r.1.value), d.cache.directories, now)
  {
    var (c, res) := ListingCache.ListFiles(d.cache, now, ScannedFiles(d.dirPath, scan));
    (d.(cache := c), res)
  }

  /** `ListDirectories`, with the guard on `files` as written. */
  function ListDirectories(d: TheDirectory, now: int, scan: Option<seq<Entry>>)
    : (r: (TheDirectory, Result<seq<TheDirectory>, ListingCache.ListError>))
    ensures r.0.dirPath == d.dirPath
    ensures !ListingCache.Rescans(d.cache, now) ==> r == (d, Ok(d.cache.directories.GetOr([])))
    ensures ListingCache.Rescans(d.cache, now) && scan.None? ==> r == (d, Err(ListingCache.ReadDirFailed))
    ensures ListingCache.Rescans(d.cache, now) && scan.Some? ==>
              && r.1 == Ok(LoadDirectories(d.dirPath, scan.value))
              && r.0.cache == ListingCache.Cache(d.cache.files, Some(r.1.value), now)
  {
    var (c, res) := ListingCache.ListDirectories(d.cache, now, ScannedDirectories(d.dirPath, scan));
    (d.(cache := c), res)
  }

  /** `ListAll`: directories, then files, each from its own `os.ReadDir`. */
  function ListAll(d: TheDirectory, now: int, dirScan: Option<seq<Entry>>, fileScan: Option<seq<Entry>>)
    : (r: (TheDirectory, Result<(seq<TheFile>, seq<TheDirectory>), ListingCache.ListError>))
    ensures r.0.dirPath == d.dirPath
    ensures var (d1, rd) := ListDirectories(d, now, dirScan);
            var (d2, rf) := ListFiles(d1, now, fileScan);
            && (r.1.Err? <==> rd.Err? || rf.Err?)
            && (r.1.Ok? ==> r.1.value == (rf.value, rd.value) && r.0 == d2)
  {
    var (c, res) := ListingCache.ListAll(d.cache, now, ScannedDirectories(d.dirPath, dirScan), ScannedFiles(d.dirPath, fileScan));
    (d.(cache := c), res)
  }

  /**
    The `logic` file listing after the first scan: the files of that scan come back on every
    later call, whatever the directory then holds.
   */
  lemma FileListingServedFromCache(path: GoString, t0: int, t1: int, first: seq<Entry>, later: Option<seq<Entry>>)
    requires t0 <= t1
    ensures var d0 := NewTheDirectory(path, true).value;
            var (d1, r1) := ListFiles(d0, t0, Some(first));
            && r1 == Ok(LoadFiles(path, first))
            && ListFiles(d1, t1, later).1 == r1
  {
    var d0 := NewTheDirectory(path, true).value;
    ListingCache.ListFilesStable(d0.cache, t0, t1, LoadFiles(path, first), ScannedFiles(path, later));
  }
}
