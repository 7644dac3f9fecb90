/** From the host's file to what a joiner's player reads: the parallel manifest builder, the wire and
    the store under concurrency, put together. */
module EndToEnd {
  import opened Bytes
  import opened Chunker
  import opened Manifests
  import opened StoreProtocol
  import HashPool
  import StoreSafety
  import Wire

  // What BuildManifest returns for the results it collected.
  function Built(file: seq<byte>, d: int64, name: seq<byte>, collected: seq<HashPool.HashResult>)
    : (r: Option<Manifest>)
    requires |file| <= MAX_INT64 && Fits(|file|, d)
    ensures r.Some? ==> |r.value.chunks| == r.value.chunkCount
  {
    CountExactly(|file|, d);
    var g := HashPool.Gather(ChunkCount(|file|, d), collected);
    if g.failed then None else Some(Manifest(name, |file|, d, ChunkCount(|file|, d), g.chunks))
  }

  // A run of the pool over the file's chunks in which the collector has all its results.
  ghost predicate Collected(sha: Digest, file: seq<byte>, d: int64,
                            pool: HashPool.Config, p0: HashPool.Pool, build: seq<HashPool.Action>)
    requires |file| <= MAX_INT64 && Fits(|file|, d)
  {
    && pool.metas == Metas(sha, file, d)
    && HashPool.Initial(pool, p0) && HashPool.Legal(pool, p0, build)
    && |HashPool.Run(pool, p0, build).collected| == |pool.metas|
  }

  // However the pool was scheduled, the build gives the sequential manifest, unless a chunk could
  // not be read.
  lemma BuiltSequentially(sha: Digest, file: seq<byte>, d: int64, name: seq<byte>,
                          pool: HashPool.Config, p0: HashPool.Pool, build: seq<HashPool.Action>)
    requires |file| <= MAX_INT64 && Fits(|file|, d) && Collected(sha, file, d, pool, p0, build)
    ensures var collected := HashPool.Run(pool, p0, build).collected;
            Built(file, d, name, collected) ==
            if exists r :: r in collected && r.meta.None? then None else Some(ManifestOf(sha, name, file, d))
  {
    HashPool.ScheduleIndependent(pool, p0, build);
  }

  // The manifest a joiner decodes from what the host sent is the one of the host's file.
  lemma ReceivedDescribes(sha: Digest, file: seq<byte>, d: int64, name: seq<byte>,
                          pool: HashPool.Config, p0: HashPool.Pool, build: seq<HashPool.Action>,
                          built: Manifest, rest: seq<byte>)
    requires |file| <= MAX_INT64 && Fits(|file|, d) && Collected(sha, file, d, pool, p0, build)
    requires Built(file, d, name, HashPool.Run(pool, p0, build).collected) == Some(built) && Transportable(built)
    ensures var received := Received(Wire.Frame(ToProto(built)) + rest);
            received.Some? && Describes(received.value, sha, file)
  {
    BuiltSequentially(sha, file, d, name, pool, p0, build);
    TransportExactly(built, rest);
  }

  // The end-to-end theorem. The host hashes its file in any schedule, without a read error, and
  // sends the manifest it built, which is within the wire's limits. The joiner's store works from
  // the manifest it decoded, nothing else; its writers, readers and scheduler interleave in any
  // way, with no colliding data delivered. Then every read that finishes has the host's bytes.
  lemma PlayerSeesOriginal(sha: Digest, file: seq<byte>, d: int64, name: seq<byte>,
                           pool: HashPool.Config, p0: HashPool.Pool, build: seq<HashPool.Action>,
                           built: Manifest, rest: seq<byte>, received: Manifest)
    requires |file| <= MAX_INT64 && Fits(|file|, d) && Collected(sha, file, d, pool, p0, build)
    requires Built(file, d, name, HashPool.Run(pool, p0, build).collected) == Some(built) && Transportable(built)
    requires Received(Wire.Frame(ToProto(built)) + rest) == Some(received)
    ensures var c := Config(sha, received, file);
            ConfigOk(c) &&
            forall s0, actions, t: nat ::
              Initial(c, s0) && Legal(c, s0, actions)
              && t < |Run(c, s0, actions).threads| && Run(c, s0, actions).threads[t].RDone? ==>
                var pc := Run(c, s0, actions).threads[t];
                pc.r.off + pc.r.len <= |file| && pc.buf == file[pc.r.off..pc.r.off + pc.r.len]
  {
    ReceivedDescribes(sha, file, d, name, pool, p0, build, built, rest);
    var c := Config(sha, received, file);
    forall s0, actions, t: nat | Initial(c, s0) && Legal(c, s0, actions)
                                 && t < |Run(c, s0, actions).threads| && Run(c, s0, actions).threads[t].RDone?
      ensures var pc := Run(c, s0, actions).threads[t];
              pc.r.off + pc.r.len <= |file| && pc.buf == file[pc.r.off..pc.r.off + pc.r.len]
    {
      StoreSafety.ReadsAreOriginal(c, s0, actions, t);
    }
  }
}
