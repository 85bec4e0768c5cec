/**
  The listing cache both `TheDirectory` types keep: the last file and directory lists and
  when they were taken. `ListFiles` and `ListDirectories` are modelled as written, with the
  same guard in both: rescan when `lastUpdate.Sub(now) > 5*time.Minute || files == nil`.

  Times are nanoseconds. The `now` of a call stands for the monotonic reading that Go's
  `time.Now()` carries, which `Time.Sub` compares whenever both operands have one; every
  `lastUpdate` a scan stores is such a reading, so in the program `now` never falls below it.
  Wall-clock steps are not modelled. The directory scan is an input (`None` when
  `os.ReadDir` fails), already turned into entities by the caller.
 */
module ListingCache {
  import opened Wrappers

  /** `5 * time.Minute`, in nanoseconds. */
  const FiveMinutes: int := 300_000_000_000

  /** The range of a `time.Duration` (an int64 count of nanoseconds). */
  const MinDuration: int := -0x8000_0000_0000_0000
  const MaxDuration: int := 0x7FFF_FFFF_FFFF_FFFF

  /**
    The zero `time.Time` (January 1, year 1, UTC), which a new directory's `lastUpdate` holds.
    It has no monotonic reading, so Go subtracts wall clocks; the difference to any present
    `now` is far below minus five minutes, as it is here.
   */
  const ZeroTime: int := -62_135_596_800_000_000_000

  /** `t.Sub(u)`: `t - u`, saturated to the range of a duration. */
  function Sub(t: int, u: int): (d: int)
    ensures MinDuration <= d <= MaxDuration
    ensures MinDuration <= t - u <= MaxDuration ==> d == t - u
    ensures d > FiveMinutes <==> t - u > FiveMinutes
  {
    if t - u < MinDuration then MinDuration
    else if t - u > MaxDuration then MaxDuration
    else t - u
  }

  /** `files` and `directories` are nil (`None`) until first scanned. */
  datatype Cache<F, D> = Cache(files: Option<seq<F>>, directories: Option<seq<D>>, lastUpdate: int)

  /** The cache of a directory entity just constructed. */
  function Fresh<F, D>(): Cache<F, D> {
    Cache(None, None, ZeroTime)
  }

  datatype ListError = ReadDirFailed   // the error of os.ReadDir

  /**
    The guard of both listing operations, as written. It fires whenever no file list is
    stored, and never on a stored list at a `now` not before its store time.
   */
  predicate Rescans<F, D>(c: Cache<F, D>, now: int): (b: bool)
    ensures c.files.None? ==> b
    ensures c.files.Some? && now >= c.lastUpdate ==> !b
  {
    Sub(c.lastUpdate, now) > FiveMinutes || c.files.None?
  }

  /** `ListFiles`: the stored list unless the guard fires; a failed scan leaves the cache as it was. */
  function ListFiles<F, D>(c: Cache<F, D>, now: int, scanned: Option<seq<F>>): (r: (Cache<F, D>, Result<seq<F>, ListError>))
    ensures !Rescans(c, now) ==> r == (c, Ok(c.files.value))
    ensures Rescans(c, now) && scanned.None? ==> r == (c, Err(ReadDirFailed))
    ensures Rescans(c, now) && scanned.Some? ==>
              r.1 == Ok(scanned.value) && r.0 == Cache(scanned, c.directories, now)
  {
    if Rescans(c, now) then
      match scanned
      case None => (c, Err(ReadDirFailed))
      case Some(files) => (c.(files := Some(files), lastUpdate := now), Ok(files))
    else (c, Ok(c.files.value))
  }

  /**
    `ListDirectories`: guarded by `files`, not `directories`, as written; when the guard
    does not fire it returns the stored directories, a nil (empty) list if never scanned.
   */
  function ListDirectories<F, D>(c: Cache<F, D>, now: int, scanned: Option<seq<D>>): (r: (Cache<F, D>, Result<seq<D>, ListError>))
    ensures !Rescans(c, now) ==> r == (c, Ok(c.directories.GetOr([])))
    ensures Rescans(c, now) && scanned.None? ==> r == (c, Err(ReadDirFailed))
    ensures Rescans(c, now) && scanned.Some? ==>
              r.1 == Ok(scanned.value) && r.0 == Cache(c.files, scanned, now)
  {
    if Rescans(c, now) then
      match scanned
      case None => (c, Err(ReadDirFailed))
      case Some(dirs) => (c.(directories := Some(dirs), lastUpdate := now), Ok(dirs))
    else (c, Ok(c.directories.GetOr([])))
  }

  /** `ListAll`: directories first, then files; a failure of either step fails both lists. */
  function ListAll<F, D>(c: Cache<F, D>, now: int, dirs: Option<seq<D>>, files: Option<seq<F>>)
    : (r: (Cache<F, D>, Result<(seq<F>, seq<D>), ListError>))
    ensures var (c1, rd) := ListDirectories(c, now, dirs);
            var (c2, rf) := ListFiles(c1, now, files);
            && (r.1.Err? <==> rd.Err? || rf.Err?)
            && (r.1.Ok? ==> r.1.value == (rf.value, rd.value) && r.0 == c2)
            && (rd.Err? ==> r.0 == c)
  {
    var (c1, rd) := ListDirectories(c, now, dirs);
    if rd.Err? then (c1, Err(rd.error))
    else
      var (c2, rf) := ListFiles(c1, now, files);
      if rf.Err? then (c2, Err(rf.error))
      else (c2, Ok((rf.value, rd.value)))
  }

  /**
    The guard fires only for an unset file list or a `now` more than five minutes before the
    stored time. A monotonic reading never produces such a `now`, so in the program only the
    unset file list triggers a rescan.
   */
  lemma RescansIff<F, D>(c: Cache<F, D>, now: int)
    ensures Rescans(c, now) <==> c.files.None? || c.lastUpdate - now > FiveMinutes
  {
  }

  /** Once the files are stored, time alone never expires them: every later call returns the same list. */
  lemma CachedFilesNeverExpire<F, D>(c: Cache<F, D>, now: int, scanned: Option<seq<F>>)
    requires c.files.Some? && now >= c.lastUpdate
    ensures ListFiles(c, now, scanned) == (c, Ok(c.files.value))
  {
  }

  /** A successful scan is served unchanged, in the same order, by every later call, whatever the directory then holds. */
  lemma ListFilesStable<F, D>(c: Cache<F, D>, t0: int, t1: int, files: seq<F>, later: Option<seq<F>>)
    requires Rescans(c, t0) && t1 >= t0
    ensures var c1 := ListFiles(c, t0, Some(files)).0;
            ListFiles(c1, t1, later) == (c1, Ok(files))
  {
  }

  /** While no file list is stored, every `ListDirectories` call rescans, and the file list stays unset. */
  lemma DirectoriesRescanWhileFilesUnset<F, D>(c: Cache<F, D>, now: int, scanned: Option<seq<D>>)
    requires c.files.None?
    ensures Rescans(c, now)
    ensures scanned.Some? ==> ListDirectories(c, now, scanned) == (Cache(None, scanned, now), Ok(scanned.value))
    ensures ListDirectories(c, now, scanned).0.files.None?
  {
  }

  /**
    Listing files first and directories afterwards on a new directory yields no directories,
    whatever the directory holds: the second call sees `files` set and returns the nil
    `directories`.
   */
  lemma DirectoriesEmptyAfterFilesOnly<F, D>(t0: int, t1: int, files: seq<F>, dirs: Option<seq<D>>)
    requires t0 <= t1
    ensures var c1 := ListFiles(Fresh<F, D>(), t0, Some(files)).0;
            ListDirectories(c1, t1, dirs).1 == Ok([])
  {
  }

  /** On a new directory, `ListAll` with both scans succeeding returns both lists and stores them. */
  lemma ListAllFromFresh<F, D>(now: int, dirs: seq<D>, files: seq<F>)
    ensures ListAll(Fresh<F, D>(), now, Some(dirs), Some(files)) == (Cache(Some(files), Some(dirs), now), Ok((files, dirs)))
  {
  }

  /**
    A failing file scan fails `ListAll`, but the directory list already stored by the first
    step stays in the cache.
   */
  lemma ListAllFileScanFails<F, D>(c: Cache<F, D>, now: int, dirs: seq<D>)
    requires c.files.None?
    ensures ListAll(c, now, Some(dirs), None) == (Cache(None, Some(dirs), now), Err(ReadDirFailed))
  {
  }

  /**
    An age-based rule, stated for contrast: a stored list is stale once it is five minutes
    old. The `5*time.Minute` constant reads as such an age limit, but the guard computes
    `lastUpdate.Sub(now)`, so the two disagree on every stored list five or more minutes old.
   */
  predicate StaleByAge<F, D>(c: Cache<F, D>, now: int) {
    c.files.None? || now - c.lastUpdate >= FiveMinutes
  }

  lemma AgeRuleDisagrees<F, D>(c: Cache<F, D>, now: int)
    requires c.files.Some? && now - c.lastUpdate >= FiveMinutes
    ensures StaleByAge(c, now) && !Rescans(c, now)
  {
  }
}
