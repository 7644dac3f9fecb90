/** The chunk store under concurrency (internal/chunk/store.go:83-119 and 139-237): any number of
    WriteChunk calls, each followed by the scheduler's OnPieceReceived, and of player Reads, each
    raising demand and then waiting for its chunks. They interleave at the level of the critical
    sections of `mu`, `waitMu` and `urgentMu` and, for the file, of single bytes. */
module StoreProtocol {
  import opened Bytes
  import opened Chunker
  import opened Manifests

  // The store works from the manifest `m` alone; `orig` is the file its contents are compared with.
  datatype Config = Config(sha: Digest, m: Manifest, orig: seq<byte>) {
    const d: int64 := m.chunkSize
  }

  // The manifest is the original file's.
  predicate Describes(m: Manifest, sha: Digest, orig: seq<byte>) {
    |orig| <= MAX_INT64 && Fits(|orig|, m.chunkSize) && m == ManifestOf(sha, m.fileName, orig, m.chunkSize)
  }

  predicate ConfigOk(c: Config) {
    Describes(c.m, c.sha, c.orig)
  }

  function Count(c: Config): (n: nat)
    requires ConfigOk(c)
    ensures n == ChunkCount(|c.orig|, c.d) == |c.m.chunks| && n > 0
  {
    CountExactly(|c.orig|, c.d);
    c.m.chunkCount
  }

  function Start(c: Config, i: int): int {
    i * c.d
  }

  function Chunk(c: Config, i: nat): (r: seq<byte>)
    requires ConfigOk(c) && i < Count(c)
    ensures 0 <= Start(c, i) && Start(c, i) + |r| <= |c.orig| && 1 <= |r| <= c.d
    ensures r == c.orig[Start(c, i)..Start(c, i) + |r|]
    ensures |r| == c.d || Start(c, i) + |r| == |c.orig|
  {
    ChunkBounds(c.orig, c.d, i);
    MulMono(0, i, c.d);
    ChunkOf(c.orig, c.d, i)
  }

  // A read of len bytes at off, already clamped to the file.
  datatype Req = Req(off: nat, len: nat)

  predicate ReqOk(c: Config, r: Req) {
    1 <= r.len && r.off + r.len <= c.m.fileSize
  }

  function First(c: Config, r: Req): int
    requires ConfigOk(c)
  {
    r.off / c.d
  }

  function Last(c: Config, r: Req): int
    requires ConfigOk(c) && ReqOk(c, r)
  {
    (r.off + r.len - 1) / c.d
  }

  // Where a call is. W: WriteChunk and the callback after it. R: the player's Read.
  datatype Pc =
    | WCheck(i: int, data: seq<byte>)             // before HasChunk and the hash check
    | WWriting(i: int, data: seq<byte>, k: nat)   // k bytes of WriteAt done
    | WMark(i: int)                               // before the section that sets the bit
    | WSignal(i: int)                             // before taking waitMu
    | WClose(i: int)                              // holding waitMu
    | WNotify(i: int)                             // before deleting the chunk from urgent
    | WDone
    | RDemand(r: Req, i: int)                     // Read's HasChunk test
    | RDemand2(r: Req, i: int)                    // Demand's own HasChunk test
    | RInsert(r: Req, i: int)                     // before the insertion into urgent
    | RWait(r: Req, i: int)                       // WaitForChunk's first test
    | RLock(r: Req, i: int)                       // before taking waitMu
    | RRecheck(r: Req, i: int)                    // holding waitMu
    | RRegister(r: Req, i: int)                   // holding waitMu, bit seen clear
    | RBlocked(r: Req, i: int, ch: nat)           // receiving from the channel
    | RRead(r: Req, buf: seq<byte>)
    | RDone(r: Req, buf: seq<byte>)

  // The call is a WriteChunk that has not returned.
  predicate Writer(pc: Pc) {
    pc.WCheck? || pc.WWriting? || pc.WMark? || pc.WSignal? || pc.WClose? || pc.WNotify?
  }

  datatype Sys = Sys(
    file: seq<byte>, have: set<int>, count: nat,
    waiters: map<int, nat>, closed: set<nat>, nextChan: nat,
    lock: Option<nat>,           // the holder of waitMu
    urgent: set<int>,
    redundant: nat,              // history: how often a bit was set that was set already
    threads: seq<Pc>)

  datatype Action = Spawn(pc: Pc) | Step(t: nat) | DiskError(t: nat)

  // No SHA-256 collision is ever delivered: data with the chunk's digest is the chunk.
  predicate NoCollision(c: Config, i: int, data: seq<byte>)
    requires ConfigOk(c)
  {
    0 <= i < Count(c) && c.sha(data) == c.m.chunks[i].hash ==> data == Chunk(c, i)
  }

  predicate Enabled(c: Config, s: Sys, a: Action)
    requires ConfigOk(c)
  {
    match a
    case Spawn(WCheck(i, data)) => NoCollision(c, i, data)
    case Spawn(RDemand(r, i)) => ReqOk(c, r) && i == First(c, r)
    case Spawn(_) => false
    case DiskError(t) => t < |s.threads| && s.threads[t].WWriting?
    case Step(t) => t < |s.threads| && CanStep(s, s.threads[t])
  }

  predicate CanStep(s: Sys, pc: Pc) {
    match pc
    case WDone => false
    case RDone(_, _) => false
    case WSignal(_) => s.lock.None?
    case RLock(_, _) => s.lock.None?
    case RBlocked(_, _, ch) => ch in s.closed
    case _ => true
  }

  // The player goes on with its next chunk: to demand it, to wait for it, or to read.
  function AfterDemand(c: Config, r: Req, i: int): Pc
    requires ConfigOk(c) && ReqOk(c, r)
  {
    if i < Last(c, r) then RDemand(r, i + 1) else RWait(r, First(c, r))
  }

  function AfterWait(c: Config, r: Req, i: int): Pc
    requires ConfigOk(c) && ReqOk(c, r)
  {
    if i < Last(c, r) then RWait(r, i + 1) else RRead(r, [])
  }

  // What every call in progress relies on for its steps to make sense.
  predicate PcOk(c: Config, pc: Pc)
    requires ConfigOk(c)
  {
    match pc
    case WCheck(i, data) => NoCollision(c, i, data)
    case WWriting(i, data, k) => 0 <= i < Count(c) && data == Chunk(c, i) && k <= |data|
    case WMark(i) => 0 <= i < Count(c)
    case WSignal(i) => 0 <= i < Count(c)
    case WClose(i) => 0 <= i < Count(c)
    case WNotify(i) => 0 <= i < Count(c)
    case WDone => true
    case RRead(r, buf) => ReqOk(c, r) && |buf| <= r.len
    case RDone(r, buf) => ReqOk(c, r) && |buf| == r.len
    case _ => ReqOk(c, pc.r) && First(c, pc.r) <= pc.i <= Last(c, pc.r)
  }

  predicate WellTyped(c: Config, s: Sys) {
    ConfigOk(c) && |s.file| == c.m.fileSize && forall t | 0 <= t < |s.threads| :: PcOk(c, s.threads[t])
  }

  // Where a call is after its next step.
  function NextPc(c: Config, s: Sys, pc: Pc): (r: Pc)
    requires ConfigOk(c) && |s.file| == c.m.fileSize && PcOk(c, pc) && CanStep(s, pc)
  {
    match pc
    case WCheck(i, data) =>
      if !(0 <= i < Count(c)) then WDone
      else if i in s.have then WNotify(i)
      else if c.sha(data) != c.m.chunks[i].hash then WDone
      else WWriting(i, data, 0)
    case WWriting(i, data, k) => if k < |data| then WWriting(i, data, k + 1) else WMark(i)
    case WMark(i) => WSignal(i)
    case WSignal(i) => WClose(i)
    case WClose(i) => WNotify(i)
    case WNotify(i) => WDone
    case RDemand(r, i) => if i in s.have then AfterDemand(c, r, i) else RDemand2(r, i)
    case RDemand2(r, i) => if i in s.have then AfterDemand(c, r, i) else RInsert(r, i)
    case RInsert(r, i) => AfterDemand(c, r, i)
    case RWait(r, i) => if i in s.have then AfterWait(c, r, i) else RLock(r, i)
    case RLock(r, i) => RRecheck(r, i)
    case RRecheck(r, i) => if i in s.have then AfterWait(c, r, i) else RRegister(r, i)
    case RRegister(r, i) => RBlocked(r, i, if i in s.waiters then s.waiters[i] else s.nextChan)
    case RBlocked(r, i, _) => AfterWait(c, r, i)
    case RRead(r, buf) => if |buf| < r.len then RRead(r, buf + [s.file[r.off + |buf|]]) else RDone(r, buf)
  }

  // What that step does to the shared state.
  function Effect(c: Config, s: Sys, t: nat, pc: Pc): (r: Sys)
    requires ConfigOk(c) && |s.file| == c.m.fileSize && PcOk(c, pc) && CanStep(s, pc)
    ensures r.threads == s.threads
  {
    match pc
    case WWriting(i, data, k) => if k < |data| then s.(file := s.file[Start(c, i) + k := data[k]]) else s
    case WMark(i) =>
      s.(have := s.have + {i}, count := s.count + 1, redundant := s.redundant + if i in s.have then 1 else 0)
    case WSignal(i) => s.(lock := Some(t))
    case WClose(i) =>
      if i in s.waiters then
        s.(lock := None, closed := s.closed + {s.waiters[i]}, waiters := s.waiters - {i})
      else s.(lock := None)
    case WNotify(i) => s.(urgent := s.urgent - {i})
    case RInsert(r, i) => s.(urgent := s.urgent + {i})
    case RLock(r, i) => s.(lock := Some(t))
    case RRecheck(r, i) => if i in s.have then s.(lock := None) else s
    case RRegister(r, i) =>
      if i in s.waiters then s.(lock := None)
      else s.(lock := None, waiters := s.waiters[i := s.nextChan], nextChan := s.nextChan + 1)
    case _ => s
  }

  function Next(c: Config, s: Sys, a: Action): Sys
    requires WellTyped(c, s) && Enabled(c, s, a)
  {
    match a
    case Spawn(pc) => s.(threads := s.threads + [pc])
    case DiskError(t) => s.(threads := s.threads[t := WDone])
    case Step(t) =>
      var pc := s.threads[t];
      Effect(c, s, t, pc).(threads := s.threads[t := NextPc(c, s, pc)])
  }

  // A fresh peer store: a sparse file of the right size, whatever bytes it shows.
  predicate Initial(c: Config, s: Sys) {
    && ConfigOk(c) && |s.file| == c.m.fileSize
    && s == Sys(s.file, {}, 0, map[], {}, 0, None, {}, 0, [])
  }

  predicate Legal(c: Config, s: Sys, actions: seq<Action>)
    requires WellTyped(c, s)
    decreases |actions|
  {
    actions == [] ||
    (Enabled(c, s, actions[0]) && (TypesKept(c, s, actions[0]); Legal(c, Next(c, s, actions[0]), actions[1..])))
  }

  function Run(c: Config, s: Sys, actions: seq<Action>): Sys
    requires WellTyped(c, s) && Legal(c, s, actions)
    decreases |actions|
  {
    if actions == [] then s
    else
      TypesKept(c, s, actions[0]);
      Run(c, Next(c, s, actions[0]), actions[1..])
  }

  lemma FirstBeforeLast(c: Config, r: Req)
    requires ConfigOk(c) && ReqOk(c, r)
    ensures 0 <= First(c, r) <= Last(c, r) < Count(c)
  {
    DivMono(r.off, r.off + r.len - 1, c.d);
    CoveringChunk(|c.orig|, c.d, r.off + r.len - 1);
    CoveringChunk(|c.orig|, c.d, r.off);
  }

  lemma DivMono(a: nat, b: nat, d: nat)
    requires a <= b && d > 0
    ensures a / d <= b / d
  {
    DivBounds(a, d);
    DivBounds(b, d);
    assert (b / d + 1) * d == b / d * d + d;
    MulReflectsOrder(a / d, b / d + 1, d);
  }

  lemma NextPcOk(c: Config, s: Sys, pc: Pc)
    requires ConfigOk(c) && |s.file| == c.m.fileSize && PcOk(c, pc) && CanStep(s, pc)
    ensures PcOk(c, NextPc(c, s, pc))
  {
    if pc.RDemand? || pc.RDemand2? || pc.RInsert? {
      FirstBeforeLast(c, pc.r);
    }
  }

  lemma TypesKept(c: Config, s: Sys, a: Action)
    requires WellTyped(c, s) && Enabled(c, s, a)
    ensures WellTyped(c, Next(c, s, a))
  {
    match a {
      case Spawn(pc) =>
        if pc.RDemand? { FirstBeforeLast(c, pc.r); }
      case DiskError(t) =>
      case Step(t) =>
        NextPcOk(c, s, s.threads[t]);
    }
  }
}
