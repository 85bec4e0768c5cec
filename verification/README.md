# Adverter media server core, in Dafny

Adverter serves the files of a directory tree over HTTP in chunks. Its core is in two Go
packages, and the two overlap.

- `server/web/model` defines `TheFile`, `TheDirectory` and `PathInfo`.
  - `TheFile` is a loaded file: its path split into parent and name, its content, and a
    chunk size.
  - `TheDirectory` is a directory with a cache of its last listing.
  - `PathInfo` is an opaque path token: `base64(json) "." md5hex(base64(json))`.
- `server/web/logic` holds a second copy of the two entities, exercised only by its own test. It has no token codec and
  does not split names.

This project models both packages as immutable values and pure functions. The file system,
the clock and the MD5 digest function are inputs.

| module | file | models |
|---|---|---|
| `GoStrings` | gostrings.dfy | `strings.LastIndex`, `strings.Split`, `strings.Contains` on one-byte separators; `Join` is the reference inverse of `Split` |
| `Hex` | hex.dfy | `hex.EncodeToString` and its inverse |
| `Digest` | digest.dfy | `MD5OfBytes`; MD5 is a parameter `md5` |
| `Base64` | base64.dfy | `base64.StdEncoding` (section 4 of RFC 4648) as Go encodes and decodes it |
| `Utf8` | utf8.dfy | `utf8.DecodeRune`, `utf8.EncodeRune`, and the replacement of invalid UTF-8 by U+FFFD |
| `PathJson` | pathjson.dfy | `json.Marshal` / `json.Unmarshal` of a `PathInfo`: Go's string encoder with HTML escaping, and Go's string decoder |
| `PathToken` | pathtoken.dfy | `ToPathInfoString`, `NewPathInfoFromBase64` |
| `Chunks` | chunks.dfy | the chunk and hash operations of `TheFile`, which both packages implement identically |
| `FsInput` | fsinput.dfy | what `os.OpenFile`/`os.Stat`/`f.Read` and `os.ReadDir` report, as input values |
| `ListingCache` | listingcache.dfy | the listing cache and its rescan guard, shared by both `TheDirectory` types |
| `MediaFile` | mediafile.dfy | the `model` package's `TheFile` and `TheDirectory` |
| `ServerLogic` | serverlogic.dfy | the `logic` package's `TheFile` and `TheDirectory` |

Modelling choices:

- A Go `string` or `[]byte` is a `seq<byte>`. `os.PathSeparator` is `/`.
- A directory scan is `Option<seq<Entry>>`; `None` means `os.ReadDir` failed. An `Entry` records:
  - the entry's name and whether it is a directory;
  - what loading it as a file would report (`FileProbe`);
  - whether listing it as a directory would succeed.
- `time.Now()` is a parameter `now`, in nanoseconds. It stands for the monotonic reading
  that `time.Now()` carries and `Time.Sub` compares. Wall-clock steps are not modelled.
  Each listing call reads the clock once.
- Go panics are preconditions:
  - a slice out of bounds in `GetBytes` and `GetByteOfChunk`;
  - a division by a zero chunk size in `GetChunkCount`;
  - a file path without a separator in the `model` `NewTheFile`.

The cache guard is modelled as the code writes it: `lastUpdate.Sub(now) > 5*time.Minute || files == nil`.

- A monotonic reading never runs backwards, so the time test never fires. A stored file list is
  then never refreshed (`ListingCache.CachedFilesNeverExpire`).
- Both `ListDirectories` guard on `files`, not on `directories`.
  - Before the first file scan, every call rescans (`ListingCache.DirectoriesRescanWhileFilesUnset`).
  - After a file scan, a directory list that was never taken comes back empty
    (`ListingCache.DirectoriesEmptyAfterFilesOnly`).
- The `5*time.Minute` constant reads as an age limit, but the guard computes
  `lastUpdate.Sub(now)`, so a stored file list never expires by time. The model follows the
  code. An age-based rule is stated only for contrast (`ListingCache.StaleByAge`,
  `ListingCache.AgeRuleDisagrees`).

`json.Unmarshal` is given `&pathInfo`, a `**PathInfo`. So the JSON text `null` sets
`pathInfo` to nil, and `NewPathInfoFromBase64` then returns a nil `*PathInfo` with a nil
error. The model returns `Ok(None)` here (`PathToken.NullTokenAccepted`). The HTTP handlers
in `EndPoint.go` then read `pathInfo.Path` without a nil check, so such a token makes them
dereference nil; the handlers are not part of this model.

## Model

| member | source | states |
|---|---|---|
| GoStrings.LastIndex | server/web/model/MediaFile.go:45 | the index is -1 exactly when the separator is absent; otherwise it holds the separator and no later byte does |
| GoStrings.Split | server/web/model/MediaFile.go:212 | there is always at least one piece, and no piece contains the separator |
| GoStrings.SplitCount | server/web/model/MediaFile.go:209-215 | `Split` returns one more piece than there are separators, so "exactly two parts" means "exactly one `.`" |
| GoStrings.JoinSplit | server/web/model/MediaFile.go:212 | joining the pieces of a split with the separator gives back the original string |
| GoStrings.SplitJoin | server/web/model/MediaFile.go:212 | splitting a join of separator-free pieces gives back the pieces |
| GoStrings.SplitTwo | server/web/model/MediaFile.go:245 | `a "." b` with no `.` in `a` or `b` splits into exactly `[a, b]` and holds one `.` |
| Hex.Encode | server/web/model/MediaFile.go:251 | two lower-case hex digits per input byte |
| Hex.DecodeEncode | server/web/model/MediaFile.go:251 | the lower-case hex encoding decodes back to the bytes it encodes |
| Hex.EncodeInjective | server/web/model/MediaFile.go:251 | two byte strings have the same hex form exactly when they are equal |
| Digest.Md5OfBytes | server/web/model/MediaFile.go:248-252 | the result is lower-case hex, twice as long as the digest, and contains no `.` |
| Digest.Md5OfBytesEqual | server/web/model/MediaFile.go:248-252 | two inputs have the same hex checksum exactly when their digests are equal |
| Base64.Encode | server/web/model/MediaFile.go:243 | the encoding has `4 * ceil(n / 3)` characters for `n` input bytes: whole padded quanta, at least one character for every input byte |
| Base64.Decode | server/web/model/MediaFile.go:222 | a successful decode yields at most three bytes for every four input characters |
| Base64.EncodeAlphabet | server/web/model/MediaFile.go:243 | every character of an encoding is in the standard alphabet or is `=` |
| Base64.EncodeHasNoNewlines | server/web/model/MediaFile.go:243 | an encoding contains no CR, no LF and no `.` |
| Base64.DecodeQuantaEncode | server/web/model/MediaFile.go:222 | decoding the quanta of an encoding returns the encoded bytes |
| Base64.DecodeEncode | server/web/model/MediaFile.go:222 | `DecodeString(EncodeToString(b))` succeeds and returns `b` |
| Utf8.DecodeRune | server/web/model/MediaFile.go:227 | reads 1 to 4 bytes, all after the first being continuation bytes; an ASCII byte is its own rune; a one-byte read of a non-ASCII byte reports U+FFFD |
| Utf8.EncodeRune | server/web/model/MediaFile.go:227 | writes one byte exactly for ASCII, continuation bytes after the first, and U+FFFD for surrogates, negatives and values above U+10FFFF |
| Utf8.DecodeEncodeRune | server/web/model/MediaFile.go:227 | every scalar value is decoded back from its own encoding, using all of its bytes |
| Utf8.EncodeDecodeRune | server/web/model/MediaFile.go:227 | a valid UTF-8 sequence re-encodes to the same bytes it was decoded from |
| Utf8.SanitizeIdentity | server/web/model/MediaFile.go:227 | replacing invalid UTF-8 by U+FFFD changes nothing exactly when the input is valid UTF-8 |
| PathJson.Marshal | server/web/model/MediaFile.go:239 | the JSON of a `PathInfo` is at least as long as the path plus the object's 11 fixed bytes and carries no raw control byte |
| PathJson.Unquote | server/web/model/MediaFile.go:227 | on success, the input left after the closing quote is a proper suffix of the input |
| PathJson.Unmarshal | server/web/model/MediaFile.go:226-227 | the result is the nil pointer exactly when the JSON text is `null` |
| PathJson.UnquoteEscape | server/web/model/MediaFile.go:227 | the string decoder undoes the string encoder, up to the replacement of invalid UTF-8 |
| PathJson.UnmarshalMarshal | server/web/model/MediaFile.go:239 | unmarshalling the JSON of a `PathInfo` gives its path back with invalid UTF-8 replaced |
| PathToken.ToPathInfoString | server/web/model/MediaFile.go:238-246 | a token has exactly one `.`, and the part after it is the checksum of the part before |
| PathToken.TokenShape | server/web/model/MediaFile.go:238-252 | with a 16-byte digest, a token is whole Base64 quanta, its one `.`, then 32 lower-case hex digits |
| PathToken.NewPathInfoFromBase64 | server/web/model/MediaFile.go:208-232 | a token fails with "unable to find separator" exactly when it does not have one `.`; it fails "unable to verify data" exactly when it has one `.` and a wrong checksum; it succeeds only on a well-formed token |
| PathToken.RoundTrip | server/web/model/MediaFile.go:208-246 | decoding the token of a path returns that path, with invalid UTF-8 replaced |
| PathToken.RoundTripValid | server/web/model/MediaFile_test.go:52-62 | for a path in valid UTF-8, decoding its token returns exactly that path |
| PathToken.NullTokenAccepted | server/web/model/MediaFile.go:226-231 | a verified token whose JSON is `null` decodes with no error and no `PathInfo` |
| PathToken.ChecksumCheckedFirst | server/web/model/MediaFile.go:217-221 | a token with a wrong checksum is refused as unverified before anything is decoded |
| PathToken.TamperedChecksumRejected | server/web/model/MediaFile.go:217-221 | changing any checksum character to a byte other than `.` makes the token unverifiable |
| PathToken.TamperedPayloadRejected | server/web/model/MediaFile.go:217-221 | a changed payload free of `.` with a different digest is refused as unverified |
| PathToken.ChecksumSeparatorRejected | server/web/model/MediaFile.go:212-215 | changing a checksum character to `.` makes the token fail with "unable to find separator" |
| Chunks.GetChunkCount | server/web/model/MediaFile.go:60-65 | for a positive chunk size the count is the ceiling of length / chunk size, and it is 0 exactly when the content is empty |
| Chunks.GetHash | server/web/model/MediaFile.go:67-74 | fails with "can not hash empty file" exactly when the content is empty; otherwise returns the checksum of the content |
| Chunks.GetBytes | server/web/model/MediaFile.go:76-86 | returns exactly the bytes in `[from, to)` with their checksum; fails with "can not hash empty slice" exactly when `from == to` |
| Chunks.GetByteOfChunk | server/web/model/MediaFile.go:88-99 | chunk `i` is `content[i*cs .. min(i*cs+cs, len)]` with its checksum; every chunk before the last is full and the last is non-empty |
| Chunks.ChunkInRangeIff | server/web/model/MediaFile.go:89-94 | for a positive chunk size the chunk slice is in bounds exactly when `0 <= i` and `i*cs <= len` |
| Chunks.ValidIndexInRange | server/web/model/MediaFile.go:89-94 | every index below the chunk count reads in bounds |
| Chunks.ConcatChunksPrefix | server/web/model/MediaFile_test.go:30-39 | the first `n` chunks, in order, are the first `min(n*cs, len)` bytes of the content |
| Chunks.ChunksReassemble | server/web/model/MediaFile_test.go:30-48 | all chunks, in order, reassemble the content |
| Chunks.ChunkDigestMatchesHash | server/web/logic/ServerLogic_test.go:34-52 | for non-empty content, `GetHash` equals the checksum of the reassembled chunks |
| Chunks.ChunkIsByteRange | server/web/model/MediaFile.go:76-99 | each chunk, with its checksum, is the byte range `GetBytes` returns for the chunk's bounds |
| Chunks.SetChunkInfo | server/web/model/MediaFile.go:105-107 | only the chunk size changes; the content is kept |
| FsInput.LoadContent | server/web/model/MediaFile.go:28-43 | the content loads exactly when the open and stat succeed, the path is not a directory and the read returns the stat size; the errors come in source order |
| FsInput.FileEntries | server/web/model/MediaFile.go:162-172 | a rescan keeps only non-directory entries that load, and no more than the scan had |
| FsInput.FileEntriesComplete | server/web/model/MediaFile.go:162-172 | every non-directory entry that loads is kept |
| FsInput.FileEntriesAppend | server/web/model/MediaFile.go:162-172 | the filter keeps scan order: the files of `a + b` are those of `a` followed by those of `b` |
| FsInput.DirEntries | server/web/model/MediaFile.go:189-199 | a rescan keeps only directory entries that can be listed |
| FsInput.DirEntriesComplete | server/web/model/MediaFile.go:189-199 | every directory entry that can be listed is kept |
| FsInput.DirEntriesAppend | server/web/model/MediaFile.go:189-199 | the filter keeps scan order: the directories of `a + b` are those of `a` followed by those of `b` |
| ListingCache.Sub | server/web/model/MediaFile.go:155 | `Sub` saturates to the range of a duration, and its result exceeds five minutes exactly when the true difference does |
| ListingCache.Rescans | server/web/model/MediaFile.go:155 | the guard fires whenever no file list is stored, and never on a stored list at a time not before its store time |
| ListingCache.ListFiles | server/web/model/MediaFile.go:154-179 | unless the guard fires, returns the stored list and leaves the cache unchanged; a failed scan errs and leaves the cache unchanged; otherwise stores the scan and `now` and returns the scan |
| ListingCache.ListDirectories | server/web/model/MediaFile.go:181-206 | the same, guarded on `files`; when the guard does not fire it returns the stored directories, empty if never taken |
| ListingCache.ListAll | server/web/model/MediaFile.go:142-152 | directories first, then files; fails exactly when either step fails, else returns both lists |
| ListingCache.RescansIff | server/web/model/MediaFile.go:155 | the guard fires exactly when no file list is stored or the stored time is more than five minutes after `now` |
| ListingCache.CachedFilesNeverExpire | server/web/model/MediaFile.go:155 | a stored file list is returned unchanged at every `now` not before its store time |
| ListingCache.ListFilesStable | server/web/model/MediaFile.go:173-177 | after a successful scan, every later call returns that same list, whatever the directory then holds |
| ListingCache.DirectoriesRescanWhileFilesUnset | server/web/logic/ServerLogic.go:150 | while no file list is stored, `ListDirectories` always rescans and leaves the file list unset |
| ListingCache.DirectoriesEmptyAfterFilesOnly | server/web/model/MediaFile.go:182-204 | on a new directory, listing files first makes a later `ListDirectories` return no directories |
| ListingCache.ListAllFromFresh | server/web/logic/ServerLogic.go:110-120 | on a new directory with both scans succeeding, `ListAll` returns and stores both lists |
| ListingCache.ListAllFileScanFails | server/web/logic/ServerLogic.go:110-120 | a failing file scan fails `ListAll`, and the directory list from the first step stays stored |
| ListingCache.AgeRuleDisagrees | server/web/model/MediaFile.go:155 | a list stored five or more minutes ago is stale by age, but the guard as written does not fire |
| MediaFile.NewTheFile | server/web/model/MediaFile.go:27-54 | fails exactly when loading fails, with that error; on success `ParentPath "/" Name == FilePath`, `Name` has no separator, and the content is the bytes read, in chunks of `DefaultChunkSize` |
| MediaFile.SetChunkInfo | server/web/model/MediaFile.go:105-107 | only the chunk size changes; the path, name, parent and content are kept |
| MediaFile.NewTheDirectory | server/web/model/MediaFile.go:118-140 | fails exactly when the path cannot be listed; splits at the last separator when it is past the first byte, else the parent is `/` and the name is the whole path; the cache starts empty |
| MediaFile.LastIndexPositive | server/web/model/MediaFile.go:123-124 | the last separator is past the first byte exactly when the path has a separator after its first byte |
| MediaFile.LastIndexOfChild | server/web/model/MediaFile.go:164-165 | the last separator of `dir "/" name` is the one inserted, when `name` has none |
| MediaFile.SplitAtLastSlash | server/web/model/MediaFile.go:45-49 | a path splits into parent and separator-free name in only one way |
| MediaFile.LoadFiles | server/web/model/MediaFile.go:157-172 | one file per kept entry, in scan order, with path `dir "/" name` and the entry's bytes as content |
| MediaFile.ListedFileNames | server/web/model/MediaFile.go:164-165 | a listed file's parent is the listed directory and its name is the entry's name |
| MediaFile.LoadDirectories | server/web/model/MediaFile.go:184-199 | one directory per kept entry, in scan order, with path `dir "/" name` and an empty cache |
| MediaFile.LoadedDirectoriesSplit | server/web/model/MediaFile.go:191-192 | under a non-empty path every listed subdirectory is split into parent and separator-free name |
| MediaFile.ListedDirectoryNames | server/web/model/MediaFile.go:191-192 | a listed subdirectory's parent is the listed directory and its name is the entry's name |
| MediaFile.ListFiles | server/web/model/MediaFile.go:154-179 | the cache step for files, with a rescan yielding `LoadFiles` of the scan; the directory's identity is kept |
| MediaFile.ListDirectories | server/web/model/MediaFile.go:181-206 | the cache step for directories, with a rescan yielding `LoadDirectories` of the scan |
| MediaFile.ListAll | server/web/model/MediaFile.go:142-152 | directories then files; fails exactly when either step fails |
| MediaFile.ListAllOnNewDirectory | server/web/model/MediaFile_test.go:12-22 | on a new directory, `ListAll` returns one file per loadable file entry and one directory per listable directory entry |
| ServerLogic.NewTheFile | server/web/logic/ServerLogic.go:11-33 | fails exactly when loading fails, with that error; on success keeps the path and the bytes read, with chunk size 100000 |
| ServerLogic.SetChunkInfo | server/web/logic/ServerLogic.go:87-89 | only `ChunkSize` changes; `FilePath` and `Content` are kept |
| ServerLogic.NewTheFileAgrees | server/web/logic/ServerLogic.go:11-33 | the `logic` and `model` constructors succeed and fail together and keep the same content and chunk size |
| ServerLogic.NewTheDirectory | server/web/logic/ServerLogic.go:91-101 | fails exactly when the path cannot be listed; keeps the path, with an empty cache |
| ServerLogic.LoadFiles | server/web/logic/ServerLogic.go:130-140 | one file per kept entry, in scan order, with path `dir "/" name` and the entry's bytes |
| ServerLogic.LoadDirectories | server/web/logic/ServerLogic.go:157-167 | one directory per kept entry, in scan order, with path `dir "/" name` and an empty cache |
| ServerLogic.LoadFilesAgrees | server/web/logic/ServerLogic.go:130-140 | a scan lists the same files, with the same paths and content, in both packages |
| ServerLogic.ListFiles | server/web/logic/ServerLogic.go:122-147 | the cache step for files, with a rescan yielding `LoadFiles` of the scan |
| ServerLogic.ListDirectories | server/web/logic/ServerLogic.go:149-174 | the cache step for directories, guarded on `files` |
| ServerLogic.ListAll | server/web/logic/ServerLogic.go:110-120 | directories then files; fails exactly when either step fails |
| ServerLogic.FileListingServedFromCache | server/web/logic/ServerLogic.go:123 | after the first file scan, every later `ListFiles` returns the files of that scan |

## Left out

- File system I/O (`os.OpenFile`, `os.Stat`, `f.Read`, `os.ReadDir`) is not performed. Its outcomes are the inputs `FileProbe`, `Entry` and the scan option.
- MD5 itself (RFC 1321) is not modelled: it is a function parameter, so every property holds for any digest function.
- `fmt.Println` logging, the HTTP layer (`Server.go`, `EndPoint.go`) and the process lifecycle are not modelled: they only call into the core.
- Concurrency is not modelled: the entities are unsynchronised per-request objects.
- Mutation through pointers shared with the cache is not modelled. In Go the cache holds `[]*TheFile` and `[]*TheDirectory`, and a cache hit returns the stored slice itself (`MediaFile.go:177`, `:204`), so `SetChunkInfo` on a listed file or `ListFiles` on a listed subdirectory changes what every later cached result points to. The model's entities are values: a cached subdirectory keeps its empty cache.
- `GetContent` and `GetChunkSize` are plain field reads (`content`, `chunkSize`) and have no members of their own.
- The `lastUpdate` field of both `TheFile` types is never read or written in the source, so it is not modelled.
- The file handle opened by `NewTheFile` is never closed in the source; handles are not modelled.
- `f.Read` may return fewer bytes than asked. The model takes the bytes one `Read` delivered as input and keeps the short-read check.
- Go's `int` is 64-bit. `chunkSize * chunk` in `GetByteOfChunk` can overflow for huge arguments; the model uses unbounded integers, and its precondition excludes those chunk numbers. The chunk number comes unchecked from the request (`strconv.Atoi` in `EndPoint.go`), so the overflow is reachable by a client: with the default chunk size, chunk 2^59 wraps the start to 0 and Go serves chunk 0.
- Slicing in Go may reach up to the capacity, not just the length. The model assumes capacity equals length, which holds for the buffers `make` allocates here.
- PathJson.Unmarshal: accepts only `null` and the exact shape `{"Path":"..."}` that `json.Marshal` writes. Go's decoder also accepts whitespace, other or repeated keys, an object missing the key (`{}`, which decodes to an empty `Path`), a case-insensitive key match, a `null` field and trailing whitespace. These are outside what a token produced by `ToPathInfoString` contains.
- PathJson.Marshal: follows the escapes of Go 1.22 and later (`\b` and `\f` as short escapes). Earlier releases write `\u0008` and `\u000c`; both forms decode the same way.
- The separator is fixed to `/`. On Windows, where the repository's tests run, `os.PathSeparator` is `\`.
- ListingCache.Rescans: `now` may be any integer, so the time test fires when `now` is more than five minutes before the stored `lastUpdate`. Go compares monotonic readings, which never go back, so in the program that test never fires after a scan. `ListingCache.CachedFilesNeverExpire` states the program's case.
- Each listing call reads the clock once. The source reads it twice: for the guard and for the stored `lastUpdate`.
