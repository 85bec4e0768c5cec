/**
  The chunked content shared by the `TheFile` entities of packages `model` and `logic`:
  a byte buffer and a chunk size, with the chunk count, whole-content hash, byte-range
  and per-chunk operations. Both packages implement these identically; the entities
  themselves (`MediaFile.TheFile`, `ServerLogic.TheFile`) wrap a `Chunked` value.

  Go's `/` and `%` truncate toward zero while Dafny's are Euclidean; the two agree here
  because every dividend is a length, hence non-negative.
 */
module Chunks {
  import opened Wrappers
  import opened GoStrings
  import opened Digest

  /** The chunk size a freshly loaded file gets. */
  const DefaultChunkSize: int := 100000

  datatype Chunked = Chunked(content: seq<byte>, chunkSize: int)

  datatype FileError =
    | EmptyFile    // "can not hash empty file"
    | EmptySlice   // "can not hash empty slice"

  /** `GetChunkCount`. A zero chunk size divides by zero in the source, hence the precondition. */
  function GetChunkCount(c: Chunked): (n: int)
    requires c.chunkSize != 0
    ensures c.chunkSize > 0 ==> n >= 0 && c.chunkSize * (n - 1) < |c.content| <= c.chunkSize * n
    ensures c.chunkSize > 0 ==> (n == 0 <==> |c.content| == 0)
  {
    var len, cs := |c.content|, c.chunkSize;
    CeilingBounds(len, cs);
    if len % cs == 0 then len / cs else len / cs + 1
  }

  lemma CeilingBounds(len: nat, cs: int)
    requires cs != 0
    ensures var n := if len % cs == 0 then len / cs else len / cs + 1;
            cs > 0 ==> n >= 0 && cs * (n - 1) < len <= cs * n
  {
    if cs > 0 {
      var q, r := len / cs, len % cs;
      assert len == cs * q + r;
      assert cs * (q + 1) == cs * q + cs;
      assert cs * (q - 1) == cs * q - cs;
    }
  }

  /** `GetHash`: the digest of the whole content; an empty file has none. */
  function GetHash(c: Chunked, md5: Md5): (r: Result<GoString, FileError>)
    ensures r.Err? <==> |c.content| == 0
    ensures r.Err? ==> r.error == EmptyFile
    ensures r.Ok? ==> r.value == Md5OfBytes(md5, c.content)
  {
    if |c.content| <= 0 then Err(EmptyFile)
    else Ok(Md5OfBytes(md5, c.content))
  }

  /**
    `GetBytes(from, to)`: the bytes in `[from, to)` and their digest. Slicing outside the
    buffer panics in the source, hence the precondition; an empty range is an error.
   */
  function GetBytes(c: Chunked, from: int, to: int, md5: Md5): (r: Result<(seq<byte>, GoString), FileError>)
    requires 0 <= from <= to <= |c.content|
    ensures r.Err? <==> from == to
    ensures r.Err? ==> r.error == EmptySlice
    ensures r.Ok? ==> |r.value.0| == to - from
    ensures r.Ok? ==> forall i :: from <= i < to ==> r.value.0[i - from] == c.content[i]
    ensures r.Ok? ==> r.value.1 == Md5OfBytes(md5, r.value.0)
  {
    var bytes := c.content[from..to];
    if |bytes| <= 0 then Err(EmptySlice)
    else Ok((bytes, Md5OfBytes(md5, bytes)))
  }

  /** First byte of chunk `i`. */
  function ChunkStart(c: Chunked, i: int): int {
    c.chunkSize * i
  }

  /** End of chunk `i`, clamped to the content as the source clamps it. */
  function ChunkEnd(c: Chunked, i: int): int {
    var e := ChunkStart(c, i) + c.chunkSize;
    if e >= |c.content| then |c.content| else e
  }

  /** The slice of chunk `i` is inside the buffer: otherwise `GetByteOfChunk` panics. */
  predicate ChunkInRange(c: Chunked, i: int) {
    0 <= ChunkStart(c, i) <= ChunkEnd(c, i)
  }

  /** The bytes of chunk `i`. */
  function ChunkBytes(c: Chunked, i: int): seq<byte>
    requires ChunkInRange(c, i)
  {
    c.content[ChunkStart(c, i)..ChunkEnd(c, i)]
  }

  function Min(a: int, b: int): int {
    if a <= b then a else b
  }

  /**
    `GetByteOfChunk(i)`: the bytes of chunk `i` and their digest (its error result is
    always nil). Every chunk but the last is full and the last is not empty.
   */
  function GetByteOfChunk(c: Chunked, i: int, md5: Md5): (r: (seq<byte>, GoString))
    requires ChunkInRange(c, i)
    ensures r.0 == c.content[c.chunkSize * i .. Min(c.chunkSize * i + c.chunkSize, |c.content|)]
    ensures r.1 == Md5OfBytes(md5, r.0)
    ensures c.chunkSize > 0 && 0 <= i < GetChunkCount(c) - 1 ==> |r.0| == c.chunkSize
    ensures c.chunkSize > 0 && i == GetChunkCount(c) - 1 ==> 0 < |r.0| <= c.chunkSize
  {
    ChunkIndexBounds(c, i);
    var bytes := ChunkBytes(c, i);
    (bytes, Md5OfBytes(md5, bytes))
  }

  /** For a valid index, chunk `i` starts before the end of the content, and all but the last end before it. */
  lemma ChunkIndexBounds(c: Chunked, i: int)
    ensures c.chunkSize > 0 && 0 <= i < GetChunkCount(c) ==> c.chunkSize * i < |c.content|
    ensures c.chunkSize > 0 && 0 <= i < GetChunkCount(c) - 1 ==> c.chunkSize * i + c.chunkSize < |c.content|
  {
    if c.chunkSize > 0 && 0 <= i < GetChunkCount(c) {
      var n, cs := GetChunkCount(c), c.chunkSize;
      MulMonotone(cs, i, n - 1);
      if i < n - 1 {
        MulMonotone(cs, i + 1, n - 1);
        assert cs * (i + 1) == cs * i + cs;
      }
    }
  }

  lemma MulMonotone(k: int, a: int, b: int)
    requires k >= 0 && a <= b
    ensures k * a <= k * b
  {
    assert k * b - k * a == k * (b - a);
  }

  /** With a positive chunk size, the index is safe exactly when the chunk starts within the content. */
  lemma ChunkInRangeIff(c: Chunked, i: int)
    requires c.chunkSize > 0
    ensures ChunkInRange(c, i) <==> 0 <= i && c.chunkSize * i <= |c.content|
  {
    if i < 0 {
      assert c.chunkSize * i < 0 by {
        assert c.chunkSize * i == -(c.chunkSize * -i);
      }
    }
  }

  /** Every index below the chunk count is safe. */
  lemma ValidIndexInRange(c: Chunked, i: int)
    requires c.chunkSize > 0 && 0 <= i < GetChunkCount(c)
    ensures ChunkInRange(c, i)
  {
    ChunkIndexBounds(c, i);
    ChunkInRangeIff(c, i);
  }

  /** Chunks `0 .. n-1` in order, as the tests reassemble them. */
  function ConcatChunks(c: Chunked, n: int): seq<byte>
    requires c.chunkSize > 0 && 0 <= n <= GetChunkCount(c)
    decreases n
  {
    if n == 0 then []
    else
      ValidIndexInRange(c, n - 1);
      ConcatChunks(c, n - 1) + ChunkBytes(c, n - 1)
  }

  lemma {:induction false} ConcatChunksPrefix(c: Chunked, n: int)
    requires c.chunkSize > 0 && 0 <= n <= GetChunkCount(c)
    ensures ConcatChunks(c, n) == c.content[..Min(c.chunkSize * n, |c.content|)]
    decreases n
  {
    if n > 0 {
      ConcatChunksPrefix(c, n - 1);
      ChunkBounds(c, n);
      var a, b := ChunkStart(c, n - 1), ChunkEnd(c, n - 1);
      var x := c.content;
      assert x[..b] == x[..a] + x[a..b];
    }
  }

  /** Chunk `n - 1` runs from the end of the first `n - 1` chunks to the end of the first `n`. */
  lemma ChunkBounds(c: Chunked, n: int)
    requires c.chunkSize > 0 && 0 < n <= GetChunkCount(c)
    ensures ChunkStart(c, n - 1) == Min(c.chunkSize * (n - 1), |c.content|)
    ensures ChunkEnd(c, n - 1) == Min(c.chunkSize * n, |c.content|)
    ensures 0 <= ChunkStart(c, n - 1) <= ChunkEnd(c, n - 1) <= |c.content|
  {
    ChunkIndexBounds(c, n - 1);
    assert c.chunkSize * n == c.chunkSize * (n - 1) + c.chunkSize;
  }

  /** Reassembling every chunk in order reproduces the content. */
  lemma ChunksReassemble(c: Chunked)
    requires c.chunkSize > 0
    ensures ConcatChunks(c, GetChunkCount(c)) == c.content
  {
    ConcatChunksPrefix(c, GetChunkCount(c));
    assert c.content[..|c.content|] == c.content;
  }

  /** What the tests check: the whole-file hash is the hash of the reassembled chunks. */
  lemma ChunkDigestMatchesHash(c: Chunked, md5: Md5)
    requires c.chunkSize > 0 && |c.content| > 0
    ensures GetHash(c, md5) == Ok(Md5OfBytes(md5, ConcatChunks(c, GetChunkCount(c))))
  {
    ChunksReassemble(c);
  }

  /** A chunk is the byte range it spans, with the same digest. */
  lemma ChunkIsByteRange(c: Chunked, i: int, md5: Md5)
    requires c.chunkSize > 0 && 0 <= i < GetChunkCount(c)
    ensures ChunkInRange(c, i)
    ensures GetBytes(c, ChunkStart(c, i), ChunkEnd(c, i), md5) == Ok(GetByteOfChunk(c, i, md5))
  {
    ValidIndexInRange(c, i);
    ChunkIndexBounds(c, i);
  }

  /** `SetChunkInfo`: the chunk size is replaced, unvalidated; the content is untouched. */
  function SetChunkInfo(c: Chunked, newChunkSize: int): (r: Chunked)
    ensures r.content == c.content && r.chunkSize == newChunkSize
  {
    c.(chunkSize := newChunkSize)
  }
}
