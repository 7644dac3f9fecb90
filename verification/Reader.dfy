/** The player's reader over the chunk store (internal/player/server.go:86-156): it raises demand
    for the chunks it needs, reads what it can, and moves its offset. */
module Reader {
  import opened Bytes
  import opened Bitfield
  import opened Chunker
  import opened Manifests
  import opened Peers
  import opened Joiner
  import S = Store

  // How a Read ends. Blocks: it waits for that chunk and has not moved.
  datatype Outcome = Got(bytes: seq<byte>) | Eof | Error | Blocks(index: int)

  function ReadOutcome(m: Manifest, d: S.Disk, offset: nat, room: nat): Outcome
    requires S.Usable(m) && m.fileSize <= |d.file|
  {
    if offset >= m.fileSize || room == 0 then Eof
    else
      match S.ReadRange(m, d, offset, S.Clamp(m.fileSize, offset, room))
      case Data(bytes) => Got(bytes)
      case Failed => Error
      case Blocks(i) => Outcome.Blocks(i)
  }

  function MissingIn(have: set<nat>, lo: nat, hi: int): set<nat> {
    set i: nat | lo <= i < hi && i !in have
  }

  lemma MissingInOneMore(have: set<nat>, lo: nat, i: nat)
    requires lo <= i
    ensures MissingIn(have, lo, i + 1) == MissingIn(have, lo, i) + if i in have then {} else {i}
  {}

  // The chunks a read asks for: those of its range that are not stored.
  function Demanded(m: Manifest, have: set<nat>, offset: nat, room: nat): set<nat>
    requires S.Usable(m)
  {
    if offset >= m.fileSize || room == 0 then {}
    else MissingIn(have, S.FirstChunk(m, offset), S.LastChunk(m, offset, S.Clamp(m.fileSize, offset, room)) + 1)
  }

  datatype Whence = SeekStart | SeekCurrent | SeekEnd | Invalid

  // Offsets are int64s, and the sum may wrap.
  function SeekTarget(at: int64, fileSize: int64, offset: int64, whence: Whence): Option<int64> {
    match whence
    case SeekStart => NonNegative(offset)
    case SeekCurrent => NonNegative(WrapInt64(at + offset))
    case SeekEnd => NonNegative(WrapInt64(fileSize + offset))
    case Invalid => None
  }

  function NonNegative(x: int64): Option<int64> {
    if x < 0 then None else Some(x)
  }

  // Where a seek should end up.
  function SeekPoint(at: int, fileSize: int, offset: int, whence: Whence): int {
    match whence
    case SeekStart => offset
    case SeekCurrent => at + offset
    case SeekEnd => fileSize + offset
    case Invalid => -1
  }

  // A seek succeeds exactly when its target is a non-negative offset that an int64 can hold, and
  // then lands there.
  lemma SeekExactly(at: int64, fileSize: int64, offset: int64, whence: Whence)
    requires at >= 0 && fileSize >= 0
    ensures var x := SeekPoint(at, fileSize, offset, whence);
            SeekTarget(at, fileSize, offset, whence) == if 0 <= x <= MAX_INT64 then Some(x) else None
  {}

  class DemandReadSeeker {
    const store: S.Store
    const scheduler: Scheduler?
    const fileSize: int64
    const chunkSize: int64
    var offset: int64

    ghost predicate Valid()
      reads this, store, store.bitfield, store.waiters.Values
      reads if scheduler == null then {} else {scheduler, scheduler.swarm, scheduler.store, scheduler.store.bitfield}
      reads if scheduler == null then {} else scheduler.store.waiters.Values
    {
      && store.Valid() && offset >= 0
      && fileSize == store.manifest.fileSize && chunkSize == store.manifest.chunkSize
      && Fits(fileSize, chunkSize) && store.manifest.chunkCount == ChunkCount(fileSize, chunkSize)
      && (scheduler != null ==> scheduler.store == store && scheduler.Valid())
    }

    constructor (store: S.Store, scheduler: Scheduler?)
      requires store.Valid() && Fits(store.manifest.fileSize, store.manifest.chunkSize)
      requires store.manifest.chunkCount == ChunkCount(store.manifest.fileSize, store.manifest.chunkSize)
      requires scheduler != null ==> scheduler.store == store && scheduler.Valid()
      ensures Valid() && this.store == store && this.scheduler == scheduler && offset == 0
    {
      this.store := store;
      this.scheduler := scheduler;
      fileSize := store.manifest.fileSize;
      chunkSize := store.manifest.chunkSize;
      offset := 0;
    }

    method DemandOne(i: nat)
      requires Valid() && scheduler != null && i < store.manifest.chunkCount
      modifies scheduler
      ensures Valid()
      ensures var s := old(scheduler.Abs());
              scheduler.Abs() == s.(urgent := s.urgent + if i in store.Abs().have then {} else {i})
    {
      var has := store.HasChunk(i);
      if !has {
        scheduler.Demand(i);
      }
    }

    // Tells the scheduler, if there is one, about every chunk of lo..hi, inclusive, that is not
    // stored.
    method DemandRange(lo: nat, hi: int)
      requires Valid() && hi < store.manifest.chunkCount
      modifies if scheduler == null then {} else {scheduler}
      ensures Valid()
      ensures scheduler != null ==>
        scheduler.Abs() ==
          old(scheduler.Abs()).(urgent := old(scheduler.urgent) + MissingIn(store.Abs().have, lo, hi + 1))
    {
      if scheduler == null {
        return;
      }
      var i := lo;
      while i <= hi
        invariant lo <= i && (i <= hi + 1 || i == lo) && Valid()
        invariant scheduler.Abs() ==
          old(scheduler.Abs()).(urgent := old(scheduler.urgent) + MissingIn(store.Abs().have, lo, i))
        decreases hi - i + 1
      {
        MissingInOneMore(store.Abs().have, lo, i);
        DemandOne(i);
        i := i + 1;
      }
    }

    // Fills the front of the caller's buffer with what was read. The store itself never changes,
    // and demand is raised before the read can block.
    method Read(p: array<byte>) returns (r: Outcome)
      requires Valid() && p != store.bitfield
      modifies this`offset, p, store`waiters, if scheduler == null then {} else {scheduler}
      ensures Valid() && store.Abs() == old(store.Abs())
      ensures r == ReadOutcome(store.manifest, store.Abs(), old(offset), p.Length)
      ensures if r.Got? then
                |r.bytes| <= p.Length && p[..] == r.bytes + old(p[..])[|r.bytes|..] && offset == old(offset) + |r.bytes|
              else p[..] == old(p[..]) && offset == old(offset)
      ensures scheduler != null ==>
        && scheduler.urgent == old(scheduler.urgent) + Demanded(store.manifest, store.Abs().have, old(offset), p.Length)
        && scheduler.inFlight == old(scheduler.inFlight) && scheduler.cursor == old(scheduler.cursor)
      ensures r.Blocks? ==> r.index in store.waiters
    {
      if offset >= fileSize {
        return Eof;
      }
      var length := S.Clamp(fileSize, offset, p.Length);
      if length <= 0 {
        return Eof;
      }
      S.RangeInFile(fileSize, chunkSize, offset, length);
      DemandRange(S.FirstChunk(store.manifest, offset), S.LastChunk(store.manifest, offset, length));
      var data := store.ReadBytes(offset, length);
      match data {
        case Failed => r := Error;
        case Blocks(i) => r := Outcome.Blocks(i);
        case Data(bytes) =>
          CopyTo(p, bytes);
          offset := offset + |bytes|;
          r := Got(bytes);
      }
    }

    method Seek(at: int64, whence: Whence) returns (r: Option<int64>)
      requires Valid()
      modifies this`offset
      ensures Valid() && r == SeekTarget(old(offset), fileSize, at, whence)
      ensures offset == if r.Some? then r.value else old(offset)
    {
      var next: int64;
      match whence {
        case SeekStart => next := at;
        case SeekCurrent => next := WrapInt64(offset + at);
        case SeekEnd => next := WrapInt64(fileSize + at);
        case Invalid => return None;
      }
      if next < 0 {
        return None;
      }
      offset := next;
      r := Some(offset);
    }
  }

  // copy(p, bytes), for bytes that fit.
  method CopyTo(p: array<byte>, bytes: seq<byte>)
    requires |bytes| <= p.Length
    modifies p
    ensures p[..] == bytes + old(p[..])[|bytes|..]
  {
    forall k | 0 <= k < |bytes| {
      p[k] := bytes[k];
    }
    assert p[..] == bytes + old(p[..])[|bytes|..];
  }
}
