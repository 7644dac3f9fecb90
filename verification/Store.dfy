/** The chunk store (internal/chunk/store.go): a file, a bitfield, a counter, and a channel per
    chunk that a reader waits for. Each method here runs without interruption; StoreProtocol
    takes the same calls apart at their critical sections. */
module Store {
  import opened Bytes
  import opened Bitfield
  import opened Chunker
  import opened Manifests

  // What is stored: the file's bytes, the chunks whose bit is set, and the counter.
  datatype Disk = Disk(file: seq<byte>, have: set<nat>, count: nat)

  // A manifest a peer store can be created for.
  predicate Usable(m: Manifest) {
    m.chunkSize > 0 && m.fileSize >= 0 && m.chunkCount == |m.chunks|
  }

  // WriteAt: overwrites in place, growing the file with zeros where needed.
  function Overwrite(file: seq<byte>, offset: nat, data: seq<byte>): (r: seq<byte>)
    ensures |r| >= |file| && |r| >= offset + |data|
    ensures r[offset..offset + |data|] == data
    ensures forall j | 0 <= j < |file| && !(offset <= j < offset + |data|) :: r[j] == file[j]
  {
    var f := if |file| < offset then file + seq(offset - |file|, _ => 0) else file;
    f[..offset] + data + if offset + |data| < |f| then f[offset + |data|..] else []
  }

  // Truncate: cuts the file or pads it with zeros to the size.
  function Truncated(found: seq<byte>, size: nat): (r: seq<byte>)
    ensures |r| == size
    ensures forall j | 0 <= j < size :: r[j] == if j < |found| then found[j] else 0
  {
    if size <= |found| then found[..size] else found + seq(size - |found|, _ => 0)
  }

  datatype Verdict = OutOfRange | AlreadyStored | HashMismatch | Verified

  function Judge(m: Manifest, sha: Digest, have: set<nat>, index: int, data: seq<byte>): Verdict
    requires Usable(m)
  {
    if index < 0 || index >= m.chunkCount then OutOfRange
    else if index in have then AlreadyStored
    else if sha(data) != m.chunks[index].hash then HashMismatch
    else Verified
  }

  // The store after WriteChunk, when the disk takes at most `room` bytes of the data.
  function Write(m: Manifest, sha: Digest, d: Disk, index: int, data: seq<byte>, room: nat): (r: (Disk, bool))
    requires Usable(m)
  {
    match Judge(m, sha, d.have, index, data)
    case OutOfRange => (d, false)
    case AlreadyStored => (d, true)
    case HashMismatch => (d, false)
    case Verified =>
      MulMono(0, index, m.chunkSize);
      if room < |data| then (d.(file := Overwrite(d.file, index * m.chunkSize, data[..room])), false)
      else (Disk(Overwrite(d.file, index * m.chunkSize, data), d.have + {index}, d.count + 1), true)
  }

  // A write reports success exactly if the chunk is stored afterwards; it stores nothing else, and
  // a chunk that was stored before is left alone, whatever the data.
  lemma WriteReports(m: Manifest, sha: Digest, d: Disk, index: int, data: seq<byte>, room: nat)
    requires Usable(m) && forall i | i in d.have :: i < m.chunkCount
    ensures var r := Write(m, sha, d, index, data, room);
            && (r.1 <==> index in r.0.have)
            && (forall i | i in r.0.have :: i in d.have || i == index)
            && (forall i | i in d.have :: i in r.0.have)
            && (index in d.have ==> r.0 == d)
  {}

  // The chunks below n that are not stored, in ascending order.
  function Missing(n: nat, have: set<nat>): (r: seq<nat>)
    ensures forall i: nat :: i in r <==> i < n && i !in have
    ensures forall a, b | 0 <= a < b < |r| :: r[a] < r[b]
  {
    if n == 0 then []
    else
      var m := Missing(n - 1, have);
      assert forall a | 0 <= a < |m| :: m[a] in m;
      if n - 1 in have then m else m + [n - 1]
  }

  lemma {:induction false} MissingSize(n: nat, have: set<nat>)
    requires forall i | i in have :: i < n
    ensures |Missing(n, have)| == n - |have|
  {
    if n == 0 {
      assert have == {};
    } else if n - 1 in have {
      var fewer := have - {n - 1};
      assert |have| == |fewer| + 1;
      MissingSize(n - 1, fewer);
      MissingSame(n - 1, have, fewer);
    } else {
      MissingSize(n - 1, have);
    }
  }

  lemma {:induction false} MissingSame(n: nat, a: set<nat>, b: set<nat>)
    requires forall i :: 0 <= i < n ==> (i in a <==> i in b)
    ensures Missing(n, a) == Missing(n, b)
  {
    if n > 0 {
      MissingSame(n - 1, a, b);
    }
  }

  // With an exact counter, IsComplete holds exactly when nothing is missing.
  lemma CompleteExactly(n: nat, d: Disk)
    requires (forall i | i in d.have :: i < n) && d.count == |d.have|
    ensures d.count == n <==> Missing(n, d.have) == []
  {
    MissingSize(n, d.have);
  }

  datatype ReadResult = Data(bytes: seq<byte>) | Failed | Blocks(index: int)

  // The first chunk in lo..hi, inclusive, that is not stored.
  function FirstMissing(have: set<nat>, lo: nat, hi: int): (r: Option<nat>)
    ensures r.Some? ==> lo <= r.value <= hi && r.value !in have && forall j :: lo <= j < r.value ==> j in have
    ensures r.None? ==> forall j :: lo <= j <= hi ==> j in have
    decreases hi - lo + 1
  {
    if lo > hi then None else if lo !in have then Some(lo) else FirstMissing(have, lo + 1, hi)
  }

  function Clamp(fileSize: int, offset: nat, length: nat): (n: nat)
    requires offset <= fileSize
    ensures offset + n <= fileSize
  {
    if offset + length > fileSize then fileSize - offset else length
  }

  function FirstChunk(m: Manifest, offset: nat): nat
    requires Usable(m)
  {
    offset / m.chunkSize
  }

  function LastChunk(m: Manifest, offset: nat, n: nat): int
    requires Usable(m)
  {
    TruncDiv(offset + n - 1, m.chunkSize)
  }

  // ReadBytes: the clamped range, once every chunk covering it is stored.
  function ReadRange(m: Manifest, d: Disk, offset: int, length: nat): ReadResult
    requires Usable(m) && m.fileSize <= |d.file|
  {
    if offset < 0 || offset >= m.fileSize then Failed
    else
      var n := Clamp(m.fileSize, offset, length);
      match FirstMissing(d.have, FirstChunk(m, offset), LastChunk(m, offset, n))
      case Some(i) => Blocks(i)
      case None => Data(d.file[offset..offset + n])
  }

  // ReadChunk: the chunk's region, as far as the file reaches.
  function ChunkRead(m: Manifest, d: Disk, index: int): Option<seq<byte>>
    requires Usable(m) && forall c | c in m.chunks :: c.size >= 0
  {
    if index < 0 || index >= m.chunkCount then None
    else
      MulMono(0, index, m.chunkSize);
      var lo, size := index * m.chunkSize, m.chunks[index].size;
      Some(if lo >= |d.file| then [] else d.file[lo..Min(lo + size, |d.file|)])
  }

  class Chan {
    var closed: bool

    constructor ()
      ensures !closed
    {
      closed := false;
    }
  }

  class Store {
    const manifest: Manifest
    const sha: Digest
    const bitfield: array<byte>
    var file: seq<byte>
    var count: nat
    var waiters: map<int, Chan>

    ghost predicate Valid()
      reads this, bitfield, waiters.Values
    {
      && Usable(manifest) && manifest.fileSize <= |file|
      && bitfield.Length == ByteLen(manifest.chunkCount)
      && (forall i | i in Bits(bitfield[..]) :: i < manifest.chunkCount)
      && (forall i | i in waiters :: !waiters[i].closed)
      && (forall i, j | i in waiters && j in waiters && i != j :: waiters[i] != waiters[j])
    }

    ghost function Abs(): Disk
      reads this, bitfield
    {
      Disk(file, Bits(bitfield[..]), count)
    }

    // NewPeerStore: a file of the full size, everything missing. `found` is what a file of that
    // name held before.
    constructor (manifest: Manifest, sha: Digest, found: seq<byte>)
      requires Usable(manifest)
      ensures Valid() && this.manifest == manifest && this.sha == sha && fresh(bitfield)
      ensures Abs() == Disk(Truncated(found, manifest.fileSize), {}, 0) && waiters == map[]
    {
      this.manifest := manifest;
      this.sha := sha;
      file := Truncated(found, manifest.fileSize);
      count := 0;
      waiters := map[];
      var bf := MakeBitfield(manifest.chunkCount);
      bitfield := bf;
    }

    method HasChunk(index: nat) returns (r: bool)
      requires Valid() && index < manifest.chunkCount
      ensures r <==> index in Abs().have
    {
      r := HasBit(bitfield[..], index);
    }

    method WriteChunk(index: int, data: seq<byte>, room: nat) returns (ok: bool)
      requires Valid()
      modifies this`file, this`count, this`waiters, bitfield, if index in waiters then {waiters[index]} else {}
      ensures Valid()
      ensures (Abs(), ok) == Write(manifest, sha, old(Abs()), index, data, room)
      ensures if index in Abs().have && index !in old(Abs().have) then
                waiters == old(waiters) - {index} && (index in old(waiters) ==> old(waiters[index]).closed)
              else
                waiters == old(waiters) && (index in waiters ==> !waiters[index].closed)
    {
      if index < 0 || index >= manifest.chunkCount {
        return false;
      }
      var has := HasChunk(index);
      if has {
        return true;
      }
      if sha(data) != manifest.chunks[index].hash {
        return false;
      }
      MulMono(0, index, manifest.chunkSize);
      var offset := index * manifest.chunkSize;
      if room < |data| {
        file := Overwrite(file, offset, data[..room]);
        return false;
      }
      file := Overwrite(file, offset, data);
      MarkStored(index);
      Signal(index);
      ok := true;
    }

    // The section under mu.
    method MarkStored(index: nat)
      requires Valid() && index < manifest.chunkCount
      modifies this`count, bitfield
      ensures Valid()
      ensures Abs() == old(Abs()).(have := old(Abs().have) + {index}, count := old(count) + 1)
    {
      SetBit(bitfield, index);
      count := count + 1;
    }

    // The section under waitMu.
    method Signal(index: int)
      requires Valid()
      modifies this`waiters, if index in waiters then {waiters[index]} else {}
      ensures Valid() && Abs() == old(Abs())
      ensures waiters == old(waiters) - {index} && (index in old(waiters) ==> old(waiters[index]).closed)
    {
      if index in waiters {
        waiters[index].closed := true;
        waiters := waiters - {index};
      }
    }

    method MissingChunks() returns (missing: seq<nat>)
      requires Valid()
      ensures missing == Missing(manifest.chunkCount, Abs().have)
    {
      missing := [];
      ghost var have := Abs().have;
      for i := 0 to manifest.chunkCount
        invariant missing == Missing(i, have)
      {
        var has := HasChunk(i);
        if !has {
          missing := missing + [i];
        }
      }
    }

    method IsComplete() returns (r: bool)
      requires Valid()
      ensures r <==> Abs().count == manifest.chunkCount
    {
      r := count == manifest.chunkCount;
    }

    method ReadChunk(index: int) returns (r: Option<seq<byte>>)
      requires Valid()
      requires forall c | c in manifest.chunks :: c.size >= 0
      ensures r == ChunkRead(manifest, Abs(), index)
    {
      if index < 0 || index >= manifest.chunkCount {
        return None;
      }
      MulMono(0, index, manifest.chunkSize);
      var size := manifest.chunks[index].size;
      var offset := index * manifest.chunkSize;
      if offset >= |file| {
        return Some([]);
      }
      r := Some(file[offset..Min(offset + size, |file|)]);
    }

    // The part of WaitForChunk before the receive: null if the chunk is stored, and otherwise
    // the open channel that WriteChunk will close.
    method WaitForChunk(index: nat) returns (ch: Chan?)
      requires Valid() && index < manifest.chunkCount
      modifies this`waiters
      ensures Valid() && Abs() == old(Abs())
      ensures ch == null <==> index in Abs().have
      ensures ch == null ==> waiters == old(waiters)
      ensures ch != null ==> index in waiters && waiters[index] == ch && waiters == old(waiters)[index := ch]
      ensures index in old(waiters) && ch != null ==> ch == old(waiters)[index]
    {
      if HasBit(bitfield[..], index) {
        return null;
      }
      if index in waiters {
        ch := waiters[index];
      } else {
        var c := new Chan();
        waiters := waiters[index := c];
        ch := c;
      }
    }

    // The waiting loop of ReadBytes, up to the first chunk it would block on.
    method WaitForRange(lo: nat, hi: int) returns (r: Option<nat>)
      requires Valid() && hi < manifest.chunkCount
      modifies this`waiters
      ensures Valid() && Abs() == old(Abs())
      ensures r == FirstMissing(Abs().have, lo, hi)
      ensures r.Some? ==> r.value in waiters
    {
      var i := lo;
      while i <= hi
        invariant lo <= i
        invariant Valid() && Abs() == old(Abs())
        invariant FirstMissing(Abs().have, lo, hi) == FirstMissing(Abs().have, i, hi)
        decreases hi - i + 1
      {
        var ch := WaitForChunk(i);
        if ch != null {
          return Some(i);
        }
        i := i + 1;
      }
      r := None;
    }

    method ReadBytes(offset: int, length: nat) returns (r: ReadResult)
      requires Valid() && Fits(manifest.fileSize, manifest.chunkSize)
      requires manifest.chunkCount == ChunkCount(manifest.fileSize, manifest.chunkSize)
      modifies this`waiters
      ensures Valid() && Abs() == old(Abs())
      ensures r == ReadRange(manifest, Abs(), offset, length)
      ensures r.Blocks? ==> r.index in waiters
    {
      if offset < 0 || offset >= manifest.fileSize {
        return Failed;
      }
      var n := Clamp(manifest.fileSize, offset, length);
      RangeInFile(manifest.fileSize, manifest.chunkSize, offset, n);
      var missing := WaitForRange(FirstChunk(manifest, offset), LastChunk(manifest, offset, n));
      if missing.Some? {
        return Blocks(missing.value);
      }
      r := Data(file[offset..offset + n]);
    }
  }

  // The last chunk a clamped range touches exists.
  lemma RangeInFile(fileSize: int64, d: int64, offset: nat, n: nat)
    requires Fits(fileSize, d) && offset < fileSize && offset + n <= fileSize
    ensures TruncDiv(offset + n - 1, d) < ChunkCount(fileSize, d)
    ensures 0 <= offset / d
  {
    if offset + n >= 1 {
      CoveringChunk(fileSize, d, offset + n - 1);
    } else {
      CoveringChunk(fileSize, d, 0);
      assert TruncDiv(-1, d) == -(1 / d);
      DivBounds(1, d);
      MulMono(0, 1 / d, d);
    }
    DivBounds(offset, d);
    MulReflectsOrder(-1, offset / d, d);
  }
}
