/**
  What the file system tells the core, as plain input values: the outcome of opening,
  statting and reading one file, and the entries of one directory listing. The entity
  constructors of both packages read files and directories through these values.
 */
module FsInput {
  import opened Wrappers
  import opened GoStrings

  /**
    One attempt to load a file: whether `os.OpenFile` and `os.Stat` succeed, whether the
    path is a directory, the size `Stat` reports and the bytes one `f.Read` delivered.
   */
  datatype FileProbe = FileProbe(opens: bool, stats: bool, isDir: bool, size: nat, read: seq<byte>)

  datatype LoadError =
    | OpenFailed   // the error of os.OpenFile
    | StatFailed   // the error of os.Stat
    | NotAFile     // "%s is not a file"
    | ShortRead    // "read size is not equal to actual size read"

  /** The checks of `NewTheFile`, in order, and the content it keeps. */
  function LoadContent(p: FileProbe): (r: Result<seq<byte>, LoadError>)
    ensures r.Ok? <==> p.opens && p.stats && !p.isDir && |p.read| == p.size
    ensures r.Ok? ==> r.value == p.read && |r.value| == p.size
    ensures !p.opens ==> r == Err(OpenFailed)
    ensures p.opens && !p.stats ==> r == Err(StatFailed)
    ensures p.opens && p.stats && p.isDir ==> r == Err(NotAFile)
  {
    if !p.opens then Err(OpenFailed)
    else if !p.stats then Err(StatFailed)
    else if p.isDir then Err(NotAFile)
    else if |p.read| != p.size then Err(ShortRead)
    else Ok(p.read)
  }

  /**
    One entry of `os.ReadDir`: its name, whether it is a directory, what loading it as a
    file would give, and whether listing it as a directory would succeed.
   */
  datatype Entry = Entry(name: GoString, isDir: bool, file: FileProbe, dirReadable: bool)

  /** The entries `ListFiles` keeps, in scan order: non-directories that load. */
  function FileEntries(entries: seq<Entry>): (kept: seq<Entry>)
    ensures |kept| <= |entries|
    ensures forall i :: 0 <= i < |kept| ==> kept[i] in entries && !kept[i].isDir && LoadContent(kept[i].file).Ok?
    decreases |entries|
  {
    if |entries| == 0 then []
    else
      var rest := FileEntries(entries[1..]);
      if !entries[0].isDir && LoadContent(entries[0].file).Ok? then [entries[0]] + rest else rest
  }

  /** The entries `ListDirectories` keeps, in scan order: directories that can be listed. */
  function DirEntries(entries: seq<Entry>): (kept: seq<Entry>)
    ensures |kept| <= |entries|
    ensures forall i :: 0 <= i < |kept| ==> kept[i] in entries && kept[i].isDir && kept[i].dirReadable
    decreases |entries|
  {
    if |entries| == 0 then []
    else
      var rest := DirEntries(entries[1..]);
      if entries[0].isDir && entries[0].dirReadable then [entries[0]] + rest else rest
  }

  /** Every non-directory entry that loads is kept. */
  lemma {:induction false} FileEntriesComplete(entries: seq<Entry>)
    ensures forall e :: e in entries && !e.isDir && LoadContent(e.file).Ok? ==> e in FileEntries(entries)
    decreases |entries|
  {
    if |entries| > 0 {
      FileEntriesComplete(entries[1..]);
      assert forall e :: e in entries ==> e == entries[0] || e in entries[1..];
    }
  }

  /** Every directory entry that can be listed is kept. */
  lemma {:induction false} DirEntriesComplete(entries: seq<Entry>)
    ensures forall e :: e in entries && e.isDir && e.dirReadable ==> e in DirEntries(entries)
    decreases |entries|
  {
    if |entries| > 0 {
      DirEntriesComplete(entries[1..]);
      assert forall e :: e in entries ==> e == entries[0] || e in entries[1..];
    }
  }

  /** A kept head entry followed by the files kept from the rest. */
  lemma FileEntriesCons(entries: seq<Entry>)
    requires |entries| > 0 && !entries[0].isDir && LoadContent(entries[0].file).Ok?
    ensures FileEntries(entries) == [entries[0]] + FileEntries(entries[1..])
  {
  }

  /** The filter keeps scan order: the files of two consecutive runs of entries are those of each, in order. */
  lemma {:induction false} FileEntriesAppend(a: seq<Entry>, b: seq<Entry>)
    ensures FileEntries(a + b) == FileEntries(a) + FileEntries(b)
    decreases |a|
  {
    if |a| == 0 {
      assert a + b == b;
    } else {
      assert (a + b)[0] == a[0];
      assert (a + b)[1..] == a[1..] + b;
      FileEntriesAppend(a[1..], b);
    }
  }

  /** The same for directories. */
  lemma {:induction false} DirEntriesAppend(a: seq<Entry>, b: seq<Entry>)
    ensures DirEntries(a + b) == DirEntries(a) + DirEntries(b)
    decreases |a|
  {
    if |a| == 0 {
      assert a + b == b;
    } else {
      assert (a + b)[0] == a[0];
      assert (a + b)[1..] == a[1..] + b;
      DirEntriesAppend(a[1..], b);
    }
  }
}
