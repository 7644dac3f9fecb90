/** What a caller of the player's reader gets from a sequence of reads, while chunks keep
    arriving in between. */
module ReaderLaws {
  import opened Bytes
  import opened Chunker
  import opened Manifests
  import opened Reader
  import opened StoreProtocol
  import opened StoreLaws
  import S = Store

  // ---------------------------------------------------------------- one read

  // Exactly the original's next bytes, as many as the buffer takes and the file has, and at
  // least one; end of file exactly at the end or for an empty buffer.
  lemma OneRead(c: Config, d: S.Disk, offset: nat, room: nat)
    requires ConfigOk(c) && Faithful(c, d)
    ensures S.Usable(c.m)
    ensures var r := ReadOutcome(c.m, d, offset, room);
            && (r.Eof? <==> offset >= |c.orig| || room == 0)
            && (r.Got? ==> 1 <= |r.bytes| <= room && r.bytes == c.orig[offset..Min(offset + room, |c.orig|)])
            && !r.Error?
  {
    ManifestUsable(c);
    if offset < |c.orig| {
      ReadIsOriginal(c, d, offset, S.Clamp(|c.orig|, offset, room));
    }
  }

  // A read demands exactly the missing chunks that have a byte of its range.
  lemma DemandsExactly(m: Manifest, have: set<nat>, offset: nat, room: nat, j: nat)
    requires S.Usable(m)
    ensures j in Demanded(m, have, offset, room) <==>
            j !in have && exists x: nat :: offset <= x < Min(offset + room, m.fileSize) && x / m.chunkSize == j
  {
    if offset < m.fileSize && room > 0 {
      var n, d := S.Clamp(m.fileSize, offset, room), m.chunkSize;
      if offset / d <= j <= (offset + n - 1) / d {
        ByteOfChunk(d, offset, n, j);
      }
      forall x: nat | offset <= x < Min(offset + room, m.fileSize)
        ensures offset / d <= x / d <= (offset + n - 1) / d
      {
        DivMono(offset, x, d);
        DivMono(x, offset + n - 1, d);
      }
    }
  }

  // A read blocks only on a chunk that is not stored and that it has demanded.
  lemma BlocksOnDemanded(c: Config, d: S.Disk, offset: nat, room: nat)
    requires ConfigOk(c) && Faithful(c, d)
    ensures S.Usable(c.m)
    ensures var r := ReadOutcome(c.m, d, offset, room);
            r.Blocks? ==> r.index in Demanded(c.m, d.have, offset, room) && r.index !in d.have
  {
    ManifestUsable(c);
  }

  // ---------------------------------------------------------------- many reads

  // The store as it is at the time of a call, and the length of the caller's buffer.
  datatype Call = Call(disk: S.Disk, room: nat)

  // The offset after a read.
  function After(offset: nat, r: Outcome): nat {
    if r.Got? then offset + |r.bytes| else offset
  }

  function Results(m: Manifest, offset: nat, calls: seq<Call>): seq<Outcome>
    requires S.Usable(m) && forall x | x in calls :: m.fileSize <= |x.disk.file|
    decreases |calls|
  {
    if calls == [] then []
    else
      var r := ReadOutcome(m, calls[0].disk, offset, calls[0].room);
      [r] + Results(m, After(offset, r), calls[1..])
  }

  function BytesOf(rs: seq<Outcome>): seq<byte> {
    if rs == [] then [] else (if rs[0].Got? then rs[0].bytes else []) + BytesOf(rs[1..])
  }

  // The bytes that consecutive calls deliver; a blocked or failed call delivers nothing.
  function Delivered(m: Manifest, offset: nat, calls: seq<Call>): seq<byte>
    requires S.Usable(m) && forall x | x in calls :: m.fileSize <= |x.disk.file|
  {
    BytesOf(Results(m, offset, calls))
  }

  predicate NeverBlocked(m: Manifest, offset: nat, calls: seq<Call>)
    requires S.Usable(m) && forall x | x in calls :: m.fileSize <= |x.disk.file|
    decreases |calls|
  {
    calls == [] ||
    var r := ReadOutcome(m, calls[0].disk, offset, calls[0].room);
    !r.Blocks? && NeverBlocked(m, After(offset, r), calls[1..])
  }

  ghost predicate AllFaithful(c: Config, calls: seq<Call>)
    requires ConfigOk(c)
  {
    forall x | x in calls :: Faithful(c, x.disk)
  }

  // The result is the original's next bytes, if it is bytes at all.
  predicate NextBytes(orig: seq<byte>, offset: nat, r: Outcome) {
    r.Got? ==> offset + |r.bytes| <= |orig| && r.bytes == orig[offset..offset + |r.bytes|]
  }

  predicate InOrder(orig: seq<byte>, offset: nat, rs: seq<Outcome>)
    decreases |rs|
  {
    rs == [] || (NextBytes(orig, offset, rs[0]) && InOrder(orig, After(offset, rs[0]), rs[1..]))
  }

  lemma {:induction false} BytesInOrder(orig: seq<byte>, offset: nat, rs: seq<Outcome>)
    requires offset <= |orig| && InOrder(orig, offset, rs)
    ensures offset + |BytesOf(rs)| <= |orig| && BytesOf(rs) == orig[offset..offset + |BytesOf(rs)|]
    decreases |rs|
  {
    if rs != [] {
      BytesInOrder(orig, After(offset, rs[0]), rs[1..]);
    }
  }

  lemma {:induction false} ResultsInOrder(c: Config, offset: nat, calls: seq<Call>)
    requires ConfigOk(c) && AllFaithful(c, calls)
    ensures S.Usable(c.m) && InOrder(c.orig, offset, Results(c.m, offset, calls))
    decreases |calls|
  {
    ManifestUsable(c);
    if calls != [] {
      OneRead(c, calls[0].disk, offset, calls[0].room);
      var r := ReadOutcome(c.m, calls[0].disk, offset, calls[0].room);
      ResultsInOrder(c, After(offset, r), calls[1..]);
    }
  }

  // Whatever arrives in between, the bytes delivered are a stretch of the original from the
  // starting offset.
  lemma DeliversOriginal(c: Config, offset: nat, calls: seq<Call>)
    requires ConfigOk(c) && AllFaithful(c, calls) && offset <= |c.orig|
    ensures S.Usable(c.m)
    ensures var bytes := Delivered(c.m, offset, calls);
            offset + |bytes| <= |c.orig| && bytes == c.orig[offset..offset + |bytes|]
  {
    ResultsInOrder(c, offset, calls);
    BytesInOrder(c.orig, offset, Results(c.m, offset, calls));
  }

  // Each call that does not block makes progress: after as many calls as bytes remain, with
  // non-empty buffers, everything has been delivered.
  lemma {:induction false} Progress(c: Config, offset: nat, calls: seq<Call>)
    requires ConfigOk(c) && AllFaithful(c, calls) && offset <= |c.orig|
    requires forall x | x in calls :: x.room >= 1
    requires S.Usable(c.m) && NeverBlocked(c.m, offset, calls)
    ensures |Delivered(c.m, offset, calls)| >= Min(|calls|, |c.orig| - offset)
    decreases |calls|
  {
    var m := c.m;
    if calls != [] {
      OneRead(c, calls[0].disk, offset, calls[0].room);
      var r := ReadOutcome(m, calls[0].disk, offset, calls[0].room);
      if r.Got? {
        Progress(c, After(offset, r), calls[1..]);
      }
    }
  }

  // From any offset, reads with non-empty buffers that do not block deliver exactly the
  // original's suffix once there were as many of them as bytes remained.
  lemma ReadsToTheEnd(c: Config, offset: nat, calls: seq<Call>)
    requires ConfigOk(c) && AllFaithful(c, calls) && offset <= |c.orig|
    requires forall x | x in calls :: x.room >= 1
    requires S.Usable(c.m) && NeverBlocked(c.m, offset, calls)
    requires |calls| >= |c.orig| - offset
    ensures Delivered(c.m, offset, calls) == c.orig[offset..]
  {
    DeliversOriginal(c, offset, calls);
    Progress(c, offset, calls);
  }

  // With every chunk stored no read blocks.
  lemma {:induction false} CompleteNeverBlocks(c: Config, offset: nat, calls: seq<Call>)
    requires ConfigOk(c) && AllFaithful(c, calls)
    requires forall x | x in calls :: forall i: nat | i < Count(c) :: i in x.disk.have
    ensures S.Usable(c.m) && NeverBlocked(c.m, offset, calls)
    decreases |calls|
  {
    var m := c.m;
    ManifestUsable(c);
    if calls != [] {
      var r := ReadOutcome(m, calls[0].disk, offset, calls[0].room);
      if r.Blocks? {
        S.RangeInFile(|c.orig|, c.d, offset, S.Clamp(|c.orig|, offset, calls[0].room));
      }
      CompleteNeverBlocks(c, After(offset, r), calls[1..]);
    }
  }

  // From any offset, reads with non-empty buffers of a complete store deliver exactly the
  // original's suffix.
  lemma CompleteReadsToTheEnd(c: Config, offset: nat, calls: seq<Call>)
    requires ConfigOk(c) && AllFaithful(c, calls) && offset <= |c.orig|
    requires forall x | x in calls :: x.room >= 1 && forall i: nat | i < Count(c) :: i in x.disk.have
    requires |calls| >= |c.orig| - offset
    ensures S.Usable(c.m) && Delivered(c.m, offset, calls) == c.orig[offset..]
  {
    CompleteNeverBlocks(c, offset, calls);
    ReadsToTheEnd(c, offset, calls);
  }
}
