/** Cutting a file into fixed-size chunks (internal/chunk/chunker.go). */
module Chunker {
  import opened Bytes

  // The chunker's own arithmetic, on int64s that may wrap.
  function ChunkCount(fileSize: int64, chunkSize: int64): int
    requires chunkSize > 0
  {
    TruncDiv(WrapInt64(fileSize + chunkSize - 1), chunkSize)
  }

  function ChunkSizeAt(fileSize: int64, chunkSize: int64, index: int): Option<int>
    requires chunkSize > 0
  {
    var count := ChunkCount(fileSize, chunkSize);
    if index < 0 || index >= count then None
    else if index != count - 1 then Some(chunkSize)
    else Some(fileSize - index * chunkSize)
  }

  function Min(a: int, b: int): int {
    if a < b then a else b
  }

  // A non-empty file and a positive chunk size whose rounding sum fits an int64.
  predicate Fits(fileSize: int, chunkSize: int) {
    0 < fileSize && 0 < chunkSize && fileSize + chunkSize - 1 <= MAX_INT64
  }

  // The bytes of chunk i: everything of the file in [i * chunkSize, (i + 1) * chunkSize).
  function ChunkOf(file: seq<byte>, chunkSize: int, i: nat): (r: seq<byte>)
    requires chunkSize > 0 && i * chunkSize <= |file|
  {
    file[i * chunkSize..Min(i * chunkSize + chunkSize, |file|)]
  }

  // ---------------------------------------------------------------- arithmetic

  lemma DivBounds(x: int, d: int)
    requires d > 0
    ensures (x / d) * d <= x < (x / d) * d + d
  {}

  lemma MulMono(a: int, b: int, d: int)
    requires a <= b && d >= 0
    ensures a * d <= b * d
  {}

  lemma MulStrict(a: int, b: int, d: int)
    requires a < b && d > 0
    ensures a * d + d <= b * d
  {
    MulMono(a + 1, b, d);
    assert (a + 1) * d == a * d + d;
  }

  lemma MulReflectsOrder(a: int, b: int, d: int)
    requires d > 0 && a * d < b * d
    ensures a < b
  {
    if a >= b {
      MulMono(b, a, d);
    }
  }

  // ---------------------------------------------------------------- the partition

  // The computed count is the number of chunks the file needs exactly when the sum in it does
  // not overflow; when it does, the count is not even positive.
  lemma CountExactly(n: int64, d: int64)
    requires n > 0 && d > 0
    ensures n + d - 1 <= MAX_INT64 <==> ChunkCount(n, d) > 0
    ensures n + d - 1 <= MAX_INT64 <==> (ChunkCount(n, d) - 1) * d < n <= ChunkCount(n, d) * d
  {
    var c := ChunkCount(n, d);
    if n + d - 1 <= MAX_INT64 {
      assert WrapInt64(n + d - 1) == n + d - 1;
      DivBounds(n + d - 1, d);
      assert (c - 1) * d == c * d - d;
      if c <= 0 { MulMono(c, 0, d); }
    } else {
      assert WrapInt64(n + d - 1) < 0;
      assert c <= 0;
      MulMono(c, 0, d);
    }
  }

  // No byte lies in two chunks.
  lemma OneChunkOnly(i: int, j: int, d: int, x: int)
    requires d > 0 && i * d <= x < i * d + d && j * d <= x < j * d + d
    ensures i == j
  {
    assert (i + 1) * d == i * d + d && (j + 1) * d == j * d + d;
    MulReflectsOrder(i, j + 1, d);
    MulReflectsOrder(j, i + 1, d);
  }

  // Every byte lies in a chunk, the one its offset divided by the chunk size names.
  lemma CoveringChunk(n: int64, d: int64, offset: nat)
    requires Fits(n, d) && offset < n
    ensures 0 <= offset / d < ChunkCount(n, d)
    ensures offset / d * d <= offset < Min(offset / d * d + d, n)
  {
    var c := ChunkCount(n, d);
    assert n <= c * d by { CountExactly(n, d); }
    DivBounds(offset, d);
    MulReflectsOrder(offset / d, c, d);
  }

  // Chunk i starts inside the file, has between 1 and chunkSize bytes, and has the size that
  // ChunkSizeAt reports; every chunk but the last is full.
  lemma ChunkBounds(file: seq<byte>, d: int64, i: nat)
    requires |file| <= MAX_INT64 && Fits(|file|, d) && i < ChunkCount(|file|, d)
    ensures i * d < |file|
    ensures 1 <= |ChunkOf(file, d, i)| <= d
    ensures ChunkSizeAt(|file|, d, i) == Some(|ChunkOf(file, d, i)|)
  {
    CountExactly(|file|, d);
    var c := ChunkCount(|file|, d);
    MulMono(i, c - 1, d);
    if i < c - 1 {
      MulStrict(i, c - 1, d);
    }
  }

  // The bytes ReadChunk should deliver, if there is such a chunk.
  function ChunkAt(file: seq<byte>, d: int64, index: int): (r: Option<seq<byte>>)
    requires 0 < |file| <= MAX_INT64 && d > 0
    ensures r.Some? ==> ChunkSizeAt(|file|, d, index) == Some(|r.value|)
    ensures r.None? ==> ChunkSizeAt(|file|, d, index) == None
  {
    if 0 <= index < ChunkCount(|file|, d) then
      CountExactly(|file|, d);
      ChunkBounds(file, d, index);
      Some(ChunkOf(file, d, index))
    else None
  }

  // The chunks one after another.
  function Join(file: seq<byte>, d: int64, k: nat): seq<byte>
    requires |file| <= MAX_INT64 && Fits(|file|, d) && k <= ChunkCount(|file|, d)
  {
    if k == 0 then []
    else
      ChunkBounds(file, d, k - 1);
      Join(file, d, k - 1) + ChunkOf(file, d, k - 1)
  }

  lemma {:induction false} JoinIsPrefix(file: seq<byte>, d: int64, k: nat)
    requires |file| <= MAX_INT64 && Fits(|file|, d) && k <= ChunkCount(|file|, d)
    ensures k * d >= 0 && Join(file, d, k) == file[..Min(k * d, |file|)]
  {
    if k > 0 {
      JoinIsPrefix(file, d, k - 1);
      ChunkBounds(file, d, k - 1);
      assert (k - 1) * d + d == k * d;
    }
  }

  // The chunks concatenate to the file.
  lemma Partition(file: seq<byte>, d: int64)
    requires |file| <= MAX_INT64 && Fits(|file|, d)
    ensures ChunkCount(|file|, d) > 0 && Join(file, d, ChunkCount(|file|, d)) == file
  {
    CountExactly(|file|, d);
    JoinIsPrefix(file, d, ChunkCount(|file|, d));
  }

  // ---------------------------------------------------------------- reading

  class FileChunker {
    const file: seq<byte>
    const chunkSize: int64

    ghost predicate Valid() {
      0 < |file| <= MAX_INT64 && chunkSize > 0
    }

    constructor (file: seq<byte>, chunkSize: int64)
      requires 0 < |file| <= MAX_INT64 && chunkSize > 0
      ensures Valid() && this.file == file && this.chunkSize == chunkSize
    {
      this.file := file;
      this.chunkSize := chunkSize;
    }

    // Reads chunk `index` to the front of the caller's buffer.
    method ReadChunk(index: int, buf: array<byte>) returns (r: Option<nat>)
      requires Valid()
      modifies buf
      ensures var chunk := ChunkAt(file, chunkSize, index);
              if chunk.Some? && |chunk.value| <= buf.Length then
                r == Some(|chunk.value|) && buf[..] == chunk.value + old(buf[..])[|chunk.value|..]
              else
                r == None && buf[..] == old(buf[..])
    {
      ghost var chunk := ChunkAt(file, chunkSize, index);
      var size := ChunkSizeAt(|file|, chunkSize, index);
      if size.None? { return None; }
      if buf.Length < size.value { return None; }
      CountExactly(|file|, chunkSize);
      ChunkBounds(file, chunkSize, index);
      var offset := index * chunkSize;
      forall k | 0 <= k < size.value {
        buf[k] := file[offset + k];
      }
      r := Some(size.value);
      assert buf[..size.value] == chunk.value;
      assert buf[..] == buf[..size.value] + buf[size.value..];
    }
  }

  method NewChunker(file: seq<byte>, chunkSize: int64) returns (c: FileChunker?)
    requires |file| <= MAX_INT64
    ensures c == null <==> chunkSize <= 0 || file == []
    ensures c != null ==> fresh(c) && c.Valid() && c.file == file && c.chunkSize == chunkSize
  {
    if chunkSize <= 0 || |file| == 0 {
      return null;
    }
    c := new FileChunker(file, chunkSize);
  }
}
