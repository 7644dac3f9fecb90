/** What the store promises when each call runs without interruption: with a manifest made from
    the original file, whatever is delivered, stored chunks and successful reads are the
    original's. */
module StoreLaws {
  import opened Bytes
  import opened Chunker
  import opened Manifests
  import opened StoreProtocol
  import opened StoreSafety
  import S = Store

  // Stored chunks show the original's bytes, and the counter counts them.
  ghost predicate Faithful(c: Config, d: S.Disk)
    requires ConfigOk(c)
  {
    && |d.file| == |c.orig|
    && (forall i | i in d.have :: i < Count(c) && GoodTo(c, d.file, i, c.d))
    && d.count == |d.have|
  }

  lemma ManifestUsable(c: Config)
    requires ConfigOk(c)
    ensures S.Usable(c.m) && c.m.chunkCount == Count(c)
  {}

  // The chunk's bytes, or a beginning of them, go to the chunk's region only.
  lemma WriteInRegion(c: Config, file: seq<byte>, i: nat, k: nat)
    requires ConfigOk(c) && |file| == |c.orig| && i < Count(c) && k <= |Chunk(c, i)|
    ensures var r := S.Overwrite(file, Start(c, i), Chunk(c, i)[..k]);
            && |r| == |c.orig|
            && (k == |Chunk(c, i)| ==> GoodTo(c, r, i, c.d))
            && (forall j: nat | j < Count(c) && GoodTo(c, file, j, c.d) :: GoodTo(c, r, j, c.d))
  {
    var lo, data := Start(c, i), Chunk(c, i)[..k];
    var r := S.Overwrite(file, lo, data);
    assert forall x | lo <= x < lo + k :: r[x] == data[x - lo] == c.orig[x];
    forall j: nat | j < Count(c) && GoodTo(c, file, j, c.d)
      ensures GoodTo(c, r, j, c.d)
    {}
  }

  // Every WriteChunk call, good, bad, repeated or cut short by a full disk, keeps the store
  // faithful.
  lemma WriteKeepsFaithful(c: Config, d: S.Disk, index: int, data: seq<byte>, room: nat)
    requires ConfigOk(c) && Faithful(c, d) && NoCollision(c, index, data)
    ensures Faithful(c, S.Write(c.m, c.sha, d, index, data, room).0)
  {
    ManifestUsable(c);
    if S.Judge(c.m, c.sha, d.have, index, data).Verified? {
      assert data == Chunk(c, index);
      assert data[..|data|] == data;
      WriteInRegion(c, d.file, index, if room < |data| then room else |data|);
    }
  }

  // A chunk becomes stored exactly when its own bytes are delivered and the disk takes them all.
  lemma StoredExactly(c: Config, d: S.Disk, index: nat, data: seq<byte>, room: nat)
    requires ConfigOk(c) && Faithful(c, d) && NoCollision(c, index, data) && index !in d.have
    ensures index in S.Write(c.m, c.sha, d, index, data, room).0.have
            <==> index < Count(c) && data == Chunk(c, index) && |data| <= room
  {
    ManifestUsable(c);
  }

  datatype Delivery = Delivery(index: int, data: seq<byte>, room: nat)

  function WriteAll(m: Manifest, sha: Digest, d: S.Disk, ds: seq<Delivery>): S.Disk
    requires S.Usable(m)
  {
    if ds == [] then d
    else
      var last := ds[|ds| - 1];
      S.Write(m, sha, WriteAll(m, sha, d, ds[..|ds| - 1]), last.index, last.data, last.room).0
  }

  lemma {:induction false} DeliveriesKeepFaithful(c: Config, d: S.Disk, ds: seq<Delivery>)
    requires ConfigOk(c) && Faithful(c, d)
    requires forall x | x in ds :: NoCollision(c, x.index, x.data)
    ensures S.Usable(c.m) && Faithful(c, WriteAll(c.m, c.sha, d, ds))
  {
    ManifestUsable(c);
    if ds != [] {
      var init, last := ds[..|ds| - 1], ds[|ds| - 1];
      DeliveriesKeepFaithful(c, d, init);
      WriteKeepsFaithful(c, WriteAll(c.m, c.sha, d, init), last.index, last.data, last.room);
    }
  }

  // From a new store, whatever the file showed before.
  lemma DownloadsFaithfully(c: Config, found: seq<byte>, ds: seq<Delivery>)
    requires ConfigOk(c) && forall x | x in ds :: NoCollision(c, x.index, x.data)
    ensures S.Usable(c.m) && c.m.fileSize >= 0
    ensures Faithful(c, WriteAll(c.m, c.sha, S.Disk(S.Truncated(found, c.m.fileSize), {}, 0), ds))
  {
    DeliveriesKeepFaithful(c, S.Disk(S.Truncated(found, c.m.fileSize), {}, 0), ds);
  }

  // What one peer serves from its store another peer's store accepts: a stored chunk is read back
  // as the original's chunk, and it passes the hash check.
  lemma ServedIsAccepted(c: Config, from: S.Disk, to: S.Disk, i: nat)
    requires ConfigOk(c) && Faithful(c, from) && i in from.have && i !in to.have
    ensures var m := c.m;
            && S.Usable(m) && (forall x | x in m.chunks :: x.size >= 0)
            && S.ChunkRead(m, from, i) == Some(Chunk(c, i))
            && S.Write(m, c.sha, to, i, Chunk(c, i), |Chunk(c, i)|).1
  {
    ManifestUsable(c);
    StoredRegion(c, from.file, i, Start(c, i), Chunk(c, i));
  }

  // Every byte of a range lies in a chunk between the range's first and last.
  lemma ByteStored(c: Config, d: S.Disk, lo: nat, hi: nat, x: nat)
    requires ConfigOk(c) && Faithful(c, d) && lo <= x < hi <= |c.orig|
    requires forall i :: lo / c.d <= i <= (hi - 1) / c.d ==> i in d.have
    ensures d.file[x] == c.orig[x]
  {
    DivMono(lo, x, c.d);
    DivMono(x, hi - 1, c.d);
    DivBounds(x, c.d);
    assert x / c.d in d.have;
  }

  lemma RangeStored(c: Config, d: S.Disk, lo: nat, hi: nat)
    requires ConfigOk(c) && Faithful(c, d) && lo <= hi <= |c.orig|
    requires forall i :: lo / c.d <= i <= TruncDiv(hi - 1, c.d) ==> i in d.have
    ensures d.file[lo..hi] == c.orig[lo..hi]
  {
    forall x | lo <= x < hi
      ensures d.file[x] == c.orig[x]
    {
      ByteStored(c, d, lo, hi, x);
    }
    SameSlice(d.file, c.orig, lo, hi);
  }

  // Whenever ReadBytes returns data, they are the original's bytes, clamped to the file.
  lemma ReadIsOriginal(c: Config, d: S.Disk, offset: int, length: nat)
    requires ConfigOk(c) && Faithful(c, d)
    ensures S.Usable(c.m)
    ensures var r := S.ReadRange(c.m, d, offset, length);
            && (r.Data? ==> 0 <= offset < |c.orig|
                            && r.bytes == c.orig[offset..Min(offset + length, |c.orig|)])
            && (r.Failed? <==> offset < 0 || offset >= |c.orig|)
            && (r.Blocks? ==> r.index !in d.have)
  {
    ManifestUsable(c);
    if 0 <= offset < |c.orig| && S.ReadRange(c.m, d, offset, length).Data? {
      RangeStored(c, d, offset, offset + S.Clamp(|c.orig|, offset, length));
    }
  }

  // A read of at least one byte succeeds exactly when every chunk that has one of its bytes is
  // stored.
  lemma ReadSucceedsExactly(c: Config, d: S.Disk, offset: nat, length: nat)
    requires ConfigOk(c) && Faithful(c, d) && offset < |c.orig| && length >= 1
    ensures S.Usable(c.m)
    ensures S.ReadRange(c.m, d, offset, length).Data? <==>
            forall x: nat :: offset <= x < Min(offset + length, |c.orig|) ==> x / c.d in d.have
  {
    ManifestUsable(c);
    var n := S.Clamp(|c.orig|, offset, length);
    if S.ReadRange(c.m, d, offset, length).Data? {
      forall x: nat | offset <= x < Min(offset + length, |c.orig|)
        ensures x / c.d in d.have
      {
        DivMono(offset, x, c.d);
        DivMono(x, offset + n - 1, c.d);
      }
    } else {
      var i := S.ReadRange(c.m, d, offset, length).index;
      ByteOfChunk(c.d, offset, n, i);
    }
  }

  // A chunk between the first and the last of a range has a byte in the range.
  lemma ByteOfChunk(d: nat, offset: nat, n: nat, i: nat)
    requires d > 0 && n >= 1 && offset / d <= i <= (offset + n - 1) / d
    ensures exists x: nat :: offset <= x < offset + n && x / d == i
  {
    if i == offset / d {
      assert offset <= offset < offset + n;
    } else {
      DivBounds(offset, d);
      MulMono(offset / d + 1, i, d);
      assert (offset / d + 1) * d == offset / d * d + d;
      DivBounds(offset + n - 1, d);
      MulMono(i, (offset + n - 1) / d, d);
      var x: nat := i * d;
      DivBounds(x, d);
      OneChunkOnly(i, x / d, d, x);
      assert offset <= x < offset + n && x / d == i;
    }
  }
}
