/** The manifest (internal/chunk/manifest.go:12-27) of a file, and its transport from host to
    joiner (internal/peer/peer.go:206-240). SHA-256 is a parameter: any function from byte strings
    to digests. */
module Manifests {
  import opened Bytes
  import opened Chunker
  import Wire
  import Stream

  type Digest = seq<byte> -> Hash

  datatype ChunkMeta = ChunkMeta(size: int64, hash: Hash)

  datatype Manifest = Manifest(
    fileName: seq<byte>, fileSize: int64, chunkSize: int64, chunkCount: int, chunks: seq<ChunkMeta>)

  function MetaOf(sha: Digest, file: seq<byte>, d: int64, i: nat): ChunkMeta
    requires |file| <= MAX_INT64 && Fits(|file|, d) && i < ChunkCount(|file|, d)
  {
    ChunkBounds(file, d, i);
    ChunkMeta(|ChunkOf(file, d, i)|, sha(ChunkOf(file, d, i)))
  }

  // The chunk table computed one chunk after the other.
  function Metas(sha: Digest, file: seq<byte>, d: int64): (r: seq<ChunkMeta>)
    requires |file| <= MAX_INT64 && Fits(|file|, d)
    ensures |r| == ChunkCount(|file|, d)
  {
    CountExactly(|file|, d);
    seq(ChunkCount(|file|, d), i requires 0 <= i < ChunkCount(|file|, d) => MetaOf(sha, file, d, i))
  }

  function ManifestOf(sha: Digest, name: seq<byte>, file: seq<byte>, d: int64): Manifest
    requires |file| <= MAX_INT64 && Fits(|file|, d)
  {
    Manifest(name, |file|, d, ChunkCount(|file|, d), Metas(sha, file, d))
  }

  // ---------------------------------------------------------------- transport

  function InfoOf(c: ChunkMeta): Wire.ChunkInfo {
    Wire.ChunkInfo(c.size % UINT32_SIZE, c.hash)
  }

  function MetaOfInfo(c: Wire.ChunkInfo): ChunkMeta {
    ChunkMeta(c.size, c.hash)
  }

  const NO_INFO := Wire.ChunkInfo(0, seq(32, _ => 0))
  const NO_META := ChunkMeta(0, seq(32, _ => 0))

  // The table the sender fills: chunkCount entries, of which the manifest's own come first.
  function ToProto(m: Manifest): Wire.Message
    requires |m.chunks| <= m.chunkCount
  {
    Wire.Manifest(m.fileName, m.fileSize, m.chunkSize, m.chunkCount % UINT32_SIZE,
      seq(m.chunkCount, i requires 0 <= i => if i < |m.chunks| then InfoOf(m.chunks[i]) else NO_INFO))
  }

  function FromProto(p: Wire.Message): Manifest
    requires p.Manifest? && |p.chunks| <= p.chunkCount
  {
    Manifest(p.fileName, p.fileSize, p.chunkSize, p.chunkCount,
      seq(p.chunkCount, i requires 0 <= i => if i < |p.chunks| then MetaOfInfo(p.chunks[i]) else NO_META))
  }

  method ManifestToProto(m: Manifest) returns (p: Wire.Message)
    requires |m.chunks| <= m.chunkCount
    ensures p == ToProto(m)
  {
    var infos := new Wire.ChunkInfo[m.chunkCount](_ => NO_INFO);
    for i := 0 to |m.chunks|
      invariant forall k :: 0 <= k < i ==> infos[k] == InfoOf(m.chunks[k])
      invariant forall k :: i <= k < infos.Length ==> infos[k] == NO_INFO
    {
      infos[i] := Wire.ChunkInfo(m.chunks[i].size % UINT32_SIZE, m.chunks[i].hash);
    }
    p := Wire.Manifest(m.fileName, m.fileSize, m.chunkSize, m.chunkCount % UINT32_SIZE, infos[..]);
    assert infos[..] == ToProto(m).chunks;
  }

  method ProtoToManifest(p: Wire.Message) returns (m: Manifest)
    requires p.Manifest? && |p.chunks| <= p.chunkCount
    ensures m == FromProto(p)
  {
    var metas := new ChunkMeta[p.chunkCount](_ => NO_META);
    for i := 0 to |p.chunks|
      invariant forall k :: 0 <= k < i ==> metas[k] == MetaOfInfo(p.chunks[k])
      invariant forall k :: i <= k < metas.Length ==> metas[k] == NO_META
    {
      metas[i] := ChunkMeta(p.chunks[i].size, p.chunks[i].hash);
    }
    m := Manifest(p.fileName, p.fileSize, p.chunkSize, p.chunkCount, metas[..]);
    assert metas[..] == FromProto(p).chunks;
  }

  // Everything the sender can check before sending.
  predicate Transportable(m: Manifest) {
    && |m.fileName| < UINT16_SIZE
    && (forall c | c in m.chunks :: 0 <= c.size < UINT32_SIZE)
    && 1 + 22 + |m.fileName| + 36 * m.chunkCount <= Wire.MAX_MESSAGE_SIZE
  }

  // What the joiner makes of the bytes the host wrote.
  ghost function Received(s: seq<byte>): Option<Manifest> {
    match Stream.ReadOne(s)
    case Some((Manifest(n, fs, cs, c, infos), _)) =>
      if |infos| <= c then Some(FromProto(Wire.Manifest(n, fs, cs, c, infos))) else None
    case _ => None
  }

  lemma PayloadLength(p: Wire.Message)
    requires p.Manifest?
    ensures |Wire.Payload(p)| == 22 + |p.fileName| + 36 * |p.chunks|
  {
    Wire.ChunkTableLength(p.chunks);
  }

  // The frame is accepted exactly when the name fits its length field and the size is legal.
  lemma FrameAcceptedExactly(m: Manifest)
    requires m.chunkCount == |m.chunks|
    ensures Wire.Sendable(ToProto(m)) <==>
              |m.fileName| < UINT16_SIZE && 1 + 22 + |m.fileName| + 36 * m.chunkCount <= Wire.MAX_MESSAGE_SIZE
  {
    var p := ToProto(m);
    PayloadLength(p);
    assert |p.chunks| == m.chunkCount && p.fileName == m.fileName;
    assert m.chunkCount < UINT32_SIZE ==> p.chunkCount == m.chunkCount;
  }

  lemma ConvertedBackExactly(m: Manifest)
    requires m.chunkCount == |m.chunks| < UINT32_SIZE
    ensures FromProto(ToProto(m)) == m <==> forall c | c in m.chunks :: 0 <= c.size < UINT32_SIZE
  {
    var back := FromProto(ToProto(m));
    assert |back.chunks| == |m.chunks|;
    assert forall i | 0 <= i < |m.chunks| ::
      back.chunks[i] == ChunkMeta(m.chunks[i].size % UINT32_SIZE, m.chunks[i].hash);
    if forall c | c in m.chunks :: 0 <= c.size < UINT32_SIZE {
      assert back.chunks == m.chunks;
    } else {
      var i :| 0 <= i < |m.chunks| && !(0 <= m.chunks[i].size < UINT32_SIZE);
      assert back.chunks[i] != m.chunks[i];
    }
  }

  // A message that converts to m is as long as m's own.
  lemma SameLength(m: Manifest, got: Wire.Message)
    requires m.chunkCount == |m.chunks|
    requires got.Manifest? && Wire.Sendable(got) && FromProto(got) == m
    ensures |m.fileName| < UINT16_SIZE && 1 + 22 + |m.fileName| + 36 * m.chunkCount <= Wire.MAX_MESSAGE_SIZE
  {
    PayloadLength(got);
  }

  // The joiner ends up with the host's manifest exactly when the name, the chunk sizes and the
  // whole frame are within their limits.
  lemma TransportExactly(m: Manifest, rest: seq<byte>)
    requires m.chunkCount == |m.chunks|
    ensures Received(Wire.Frame(ToProto(m)) + rest) == Some(m) <==> Transportable(m)
  {
    var p := ToProto(m);
    var s := Wire.Frame(p) + rest;
    FrameAcceptedExactly(m);
    if Wire.Sendable(p) {
      Stream.RoundTripExactly(p, rest);
      ConvertedBackExactly(m);
    } else if Received(s) == Some(m) {
      Stream.ReadSound(s);
      SameLength(m, Stream.ReadOne(s).value.0);
    }
  }
}
