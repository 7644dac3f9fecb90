/** The hand-written encoders and decoders (internal/protocol/codec.go), proved against the wire
    format: an encoder appends exactly the payload, a decoder returns exactly the message the
    payload holds. */
module Codec {
  import opened Bytes
  import opened Wire
  import opened Stream

  // A bytes.Buffer, also used for the connection written to.
  class Buffer {
    var data: seq<byte>

    constructor ()
      ensures data == []
    {
      data := [];
    }

    method Write(bs: seq<byte>)
      modifies this
      ensures data == old(data) + bs
    {
      data := data + bs;
    }
  }

  // A bytes.Reader over a payload, or the connection read from.
  class Reader {
    const data: seq<byte>
    var pos: nat

    ghost predicate Valid()
      reads this
    {
      pos <= |data|
    }

    constructor (data: seq<byte>)
      ensures Valid() && this.data == data && pos == 0
    {
      this.data := data;
      pos := 0;
    }

    // io.ReadFull: all n bytes, or an error after taking whatever is left.
    method ReadFull(n: nat) returns (r: Option<seq<byte>>)
      requires Valid()
      modifies this
      ensures Valid()
      ensures r.Some? <==> old(pos) + n <= |data|
      ensures r.Some? ==> pos == old(pos) + n && r.value == data[old(pos)..pos]
      ensures r.None? ==> pos == |data|
    {
      if pos + n <= |data| {
        r := Some(data[pos..pos + n]);
        pos := pos + n;
      } else {
        r := None;
        pos := |data|;
      }
    }

    // binary.Read of an n-byte big-endian unsigned integer.
    method ReadUint(n: nat) returns (r: Option<nat>)
      requires Valid()
      modifies this
      ensures Valid()
      ensures r.Some? <==> old(pos) + n <= |data|
      ensures r.Some? ==> pos == old(pos) + n && r.value < Pow256(n) && PutBE(n, r.value) == data[old(pos)..pos]
      ensures r.Some? ==> r.value == GetBE(data[old(pos)..pos])
      ensures r.None? ==> pos == |data|
    {
      var bs := ReadFull(n);
      if bs.None? {
        return None;
      }
      GetBound(bs.value);
      PutGet(bs.value);
      r := Some(GetBE(bs.value));
    }

    // binary.Read of an int64.
    method ReadInt64() returns (r: Option<int64>)
      requires Valid()
      modifies this
      ensures Valid()
      ensures r.Some? <==> old(pos) + 8 <= |data|
      ensures r.Some? ==> pos == old(pos) + 8 && PutBE(8, ToUint64(r.value)) == data[old(pos)..pos]
      ensures r.None? ==> pos == |data|
    {
      var u := ReadUint(8);
      if u.None? {
        return None;
      }
      Widths();
      ToFromUint64(u.value);
      r := Some(FromUint64(u.value));
    }
  }

  lemma ToFromUint64(x: uint64)
    ensures ToUint64(FromUint64(x)) == x
  {}

  // ---------------------------------------------------------------- encoders

  method EncodeHandshake(buf: Buffer, m: Message)
    requires m.Handshake?
    modifies buf
    ensures buf.data == old(buf.data) + Payload(m)
  {
    buf.Write(m.peerId);
    buf.Write([m.version]);
  }

  // One more item, written in two parts.
  lemma ItemWritten<T>(enc: T -> seq<byte>, head: seq<byte>, xs: seq<T>, i: nat, p: seq<byte>, q: seq<byte>)
    requires i < |xs| && enc(xs[i]) == p + q
    ensures ((head + Concat(enc, xs[..i])) + p) + q == head + Concat(enc, xs[..i + 1])
  {
    ConcatSnoc(enc, xs[..i], xs[i]);
    assert xs[..i + 1] == xs[..i] + [xs[i]];
  }

  method EncodeManifest(buf: Buffer, m: Message)
    requires m.Manifest?
    modifies buf
    ensures buf.data == old(buf.data) + Payload(m)
  {
    buf.Write(PutBE(2, |m.fileName|));
    buf.Write(m.fileName);
    buf.Write(PutBE(8, ToUint64(m.fileSize)) + PutBE(8, ToUint64(m.chunkSize)) + PutBE(4, m.chunkCount));
    ghost var head := old(buf.data) + ManifestHead(m.fileName, m.fileSize, m.chunkSize, m.chunkCount);
    for i := 0 to |m.chunks|
      invariant buf.data == head + Concat(EncChunk, m.chunks[..i])
    {
      var c := m.chunks[i];
      ItemWritten(EncChunk, head, m.chunks, i, PutBE(4, c.size), c.hash);
      buf.Write(PutBE(4, c.size));
      buf.Write(c.hash);
    }
    assert m.chunks[..|m.chunks|] == m.chunks;
  }

  method EncodeRequest(buf: Buffer, m: Message)
    requires m.Request?
    modifies buf
    ensures buf.data == old(buf.data) + Payload(m)
  {
    buf.Write(PutBE(4, |m.indices|));
    for i := 0 to |m.indices|
      invariant buf.data == old(buf.data) + PutBE(4, |m.indices|) + Concat(EncIndex, m.indices[..i])
    {
      ConcatSnoc(EncIndex, m.indices[..i], m.indices[i]);
      assert m.indices[..i + 1] == m.indices[..i] + [m.indices[i]];
      buf.Write(PutBE(4, m.indices[i]));
    }
    assert m.indices[..|m.indices|] == m.indices;
  }

  method EncodePeerList(buf: Buffer, m: Message)
    requires m.PeerList?
    modifies buf
    ensures buf.data == old(buf.data) + Payload(m)
  {
    buf.Write(PutBE(4, |m.addrs|));
    ghost var head := buf.data;
    for i := 0 to |m.addrs|
      invariant buf.data == head + Concat(EncAddr, m.addrs[..i])
    {
      var a := m.addrs[i];
      ItemWritten(EncAddr, head, m.addrs, i, PutBE(2, |a|), a);
      buf.Write(PutBE(2, |a|));
      buf.Write(a);
    }
    assert m.addrs[..|m.addrs|] == m.addrs;
  }

  method EncodeSync(buf: Buffer, m: Message)
    requires m.Sync?
    modifies buf
    ensures buf.data == old(buf.data) + Payload(m)
  {
    buf.Write(PutBE(8, m.playbackTime) + [m.state] + PutBE(8, ToUint64(m.unixMs)));
  }

  method EncodePayload(buf: Buffer, m: Message)
    modifies buf
    ensures buf.data == old(buf.data) + Payload(m)
  {
    match m {
      case Handshake(_, _) => EncodeHandshake(buf, m);
      case Manifest(_, _, _, _, _) => EncodeManifest(buf, m);
      case Bitfield(bits) => buf.Write(bits);
      case Have(i) => buf.Write(PutBE(4, i));
      case Request(_) => EncodeRequest(buf, m);
      case Piece(i, data) =>
        buf.Write(PutBE(4, i));
        buf.Write(data);
      case Cancel(i) => buf.Write(PutBE(4, i));
      case Sync(_, _, _) => EncodeSync(buf, m);
      case PeerList(_) => EncodePeerList(buf, m);
      case Keepalive =>
    }
  }

  // The length and type, written into the blank header space.
  method PatchHeader(data: array<byte>, code: byte)
    requires data.Length >= 5
    modifies data
    ensures data[..] == PutBE(4, data.Length - 4) + [code] + old(data[5..])
  {
    var header := PutBE(4, data.Length - 4);
    data[0], data[1], data[2], data[3] := header[0], header[1], header[2], header[3];
    data[4] := code;
    assert data[..4] == header;
    assert data[5..] == old(data[5..]);
    assert data[..] == data[..4] + [data[4]] + data[5..];
  }

  // The buffered bytes as one write, with the header filled in.
  method WriteFrame(w: Buffer, bytes: seq<byte>, code: byte)
    requires |bytes| >= 5
    modifies w
    ensures w.data == old(w.data) + (PutBE(4, |bytes| - 4) + [code] + bytes[5..])
  {
    var data := new byte[|bytes|](i requires 0 <= i < |bytes| => bytes[i]);
    assert data[5..] == bytes[5..];
    PatchHeader(data, code);
    w.Write(data[..]);
  }

  method WriteMessage(w: Buffer, m: Message)
    modifies w
    ensures w.data == old(w.data) + Frame(m)
  {
    var buf := new Buffer();
    buf.Write([0, 0, 0, 0, 0]);
    EncodePayload(buf, m);
    assert buf.data[5..] == Payload(m);
    WriteFrame(w, buf.data, TypeCode(m));
  }

  // ---------------------------------------------------------------- decoders

  method DecodeHandshake(data: seq<byte>) returns (r: Option<Message>)
    ensures r == Reading(0x01, data)
  {
    if |data| < 17 {
      return None;
    }
    r := Some(Handshake(data[..16], data[16]));
    ReadingIs(0x01, data, r.value);
  }

  // The payload is as long as its name length and chunk count say.
  predicate ManifestFits(data: seq<byte>) {
    && |data| >= 2 && |data| >= 22 + GetBE(data[..2])
    && var k := GetBE(data[..2]); |data| >= 22 + k + 36 * GetBE(data[18 + k..22 + k])
  }

  lemma ManifestHeld(data: seq<byte>, m: Message)
    requires Holds(0x02, data, m)
    ensures ManifestFits(data)
  {
    var k := |m.fileName|;
    var head := ManifestHead(m.fileName, m.fileSize, m.chunkSize, m.chunkCount);
    SplitPrefix(head, Concat(EncChunk, m.chunks), data);
    ChunkTableLength(m.chunks);
    Widths();
    assert data[..2] == head[..2] == PutBE(2, k);
    assert data[18 + k..22 + k] == head[18 + k..] == PutBE(4, m.chunkCount);
    GetPut(2, k);
    GetPut(4, m.chunkCount);
  }

  // The bytes of one more item of a list are read.
  lemma OneMoreItem<T>(enc: T -> seq<byte>, data: seq<byte>, start: nat, done: nat, pos: nat, got: seq<T>, x: T)
    requires start <= done <= pos <= |data|
    requires data[start..done] == Concat(enc, got) && data[done..pos] == enc(x)
    ensures data[start..pos] == Concat(enc, got + [x])
  {
    assert data[start..pos] == data[start..done] + data[done..pos];
    ConcatSnoc(enc, got, x);
  }

  method DecodeChunk(rd: Reader) returns (r: Option<ChunkInfo>)
    requires rd.Valid()
    modifies rd
    ensures rd.Valid()
    ensures r.Some? <==> old(rd.pos) + 36 <= |rd.data|
    ensures r.Some? ==> rd.pos == old(rd.pos) + 36 && rd.data[old(rd.pos)..rd.pos] == EncChunk(r.value)
  {
    var size := rd.ReadUint(4);
    if size.None? { return None; }
    var hash := rd.ReadFull(32);
    if hash.None? { return None; }
    Widths();
    r := Some(ChunkInfo(size.value, hash.value));
  }

  // The count-driven loop over the chunk table.
  method DecodeChunks(rd: Reader, count: uint32) returns (r: Option<seq<ChunkInfo>>)
    requires rd.Valid()
    modifies rd
    ensures rd.Valid()
    ensures r.Some? <==> old(rd.pos) + 36 * count <= |rd.data|
    ensures r.Some? ==> |r.value| == count && rd.pos == old(rd.pos) + 36 * count
                        && rd.data[old(rd.pos)..rd.pos] == Concat(EncChunk, r.value)
  {
    ghost var start := rd.pos;
    var chunks := new ChunkInfo[count];
    for i := 0 to count
      invariant rd.Valid() && rd.pos == start + 36 * i
      invariant rd.data[start..rd.pos] == Concat(EncChunk, chunks[..i])
    {
      ghost var done, got := rd.pos, chunks[..i];
      var chunk := DecodeChunk(rd);
      if chunk.None? { return None; }
      OneMoreItem(EncChunk, rd.data, start, done, rd.pos, got, chunk.value);
      chunks[i] := chunk.value;
      assert chunks[..i + 1] == got + [chunk.value];
    }
    assert chunks[..count] == chunks[..];
    r := Some(chunks[..]);
  }

  lemma Unreadable(data: seq<byte>)
    requires !ManifestFits(data)
    ensures Reading(0x02, data) == None
  {
    if Reading(0x02, data).Some? {
      ManifestHeld(data, Reading(0x02, data).value);
    }
  }

  datatype Head = Head(name: seq<byte>, fileSize: int64, chunkSize: int64, count: uint32)

  // Everything before the chunk table.
  method DecodeHead(rd: Reader) returns (r: Option<Head>)
    requires rd.Valid() && rd.pos == 0
    modifies rd
    ensures rd.Valid()
    ensures r.Some? ==> |r.value.name| < UINT16_SIZE && rd.pos == 22 + |r.value.name|
    ensures r.Some? ==>
      rd.data[..rd.pos] == ManifestHead(r.value.name, r.value.fileSize, r.value.chunkSize, r.value.count)
    ensures r.None? ==> |rd.data| < 2 || |rd.data| < 22 + GetBE(rd.data[..2])
  {
    var nameLen := rd.ReadUint(2);
    if nameLen.None? { return None; }
    assert rd.data[0..2] == rd.data[..2];
    var name := rd.ReadFull(nameLen.value);
    if name.None? { return None; }
    ghost var k := |name.value|;
    assert rd.data[..2 + k] == PutBE(2, k) + name.value;
    var fileSize := rd.ReadInt64();
    if fileSize.None? { return None; }
    var chunkSize := rd.ReadInt64();
    if chunkSize.None? { return None; }
    var count := rd.ReadUint(4);
    if count.None? { return None; }
    Widths();
    r := Some(Head(name.value, fileSize.value, chunkSize.value, count.value));
    HeadBytes(r.value, rd.data);
  }

  lemma FourSlices(s: seq<byte>, i: nat, j: nat, k: nat, l: nat)
    requires i <= j <= k <= l <= |s|
    ensures s[..l] == s[..i] + s[i..j] + s[j..k] + s[k..l]
  {}

  lemma HeadBytes(h: Head, data: seq<byte>)
    requires var k := |h.name|;
             && |data| >= 22 + k && data[..2 + k] == PutBE(2, k) + h.name
             && data[2 + k..10 + k] == PutBE(8, ToUint64(h.fileSize))
             && data[10 + k..18 + k] == PutBE(8, ToUint64(h.chunkSize))
             && data[18 + k..22 + k] == PutBE(4, h.count)
    ensures data[..22 + |h.name|] == ManifestHead(h.name, h.fileSize, h.chunkSize, h.count)
  {
    var k := |h.name|;
    FourSlices(data, 2 + k, 10 + k, 18 + k, 22 + k);
  }

  method DecodeManifest(data: seq<byte>) returns (r: Option<Message>)
    ensures r == Reading(0x02, data)
  {
    var rd := new Reader(data);
    var head := DecodeHead(rd);
    if head.None? {
      Unreadable(data);
      return None;
    }
    var h := head.value;
    ghost var k := |h.name|;
    HeadFields(h, data);
    var chunks := DecodeChunks(rd, h.count);
    if chunks.None? {
      Unreadable(data);
      return None;
    }
    r := Some(Manifest(h.name, h.fileSize, h.chunkSize, h.count, chunks.value));
    assert Payload(r.value) == data[..22 + k] + data[22 + k..rd.pos] == data[..rd.pos];
    ReadingIs(0x02, data, r.value);
  }

  lemma HeadFields(h: Head, data: seq<byte>)
    requires |h.name| < UINT16_SIZE && |data| >= 22 + |h.name|
    requires data[..22 + |h.name|] == ManifestHead(h.name, h.fileSize, h.chunkSize, h.count)
    ensures GetBE(data[..2]) == |h.name| && GetBE(data[18 + |h.name|..22 + |h.name|]) == h.count
  {
    var k := |h.name|;
    var bs := data[..22 + k];
    Widths();
    assert data[..2] == bs[..2] == PutBE(2, k) && data[18 + k..22 + k] == bs[18 + k..] == PutBE(4, h.count);
    GetPut(2, k);
    GetPut(4, h.count);
  }

  method DecodeBitfield(data: seq<byte>) returns (r: Option<Message>)
    ensures r == Reading(0x03, data) && r.Some?
  {
    r := Some(Bitfield(data));
    ReadingIs(0x03, data, r.value);
  }

  method DecodeHave(data: seq<byte>) returns (r: Option<Message>)
    ensures r == Reading(0x04, data)
  {
    if |data| < 4 {
      return None;
    }
    PutGet(data[..4]);
    GetBound(data[..4]);
    Widths();
    r := Some(Have(GetBE(data[..4])));
    ReadingIs(0x04, data, r.value);
  }

  lemma {:induction false} IndexTableLength(xs: seq<uint32>)
    ensures |Concat(EncIndex, xs)| == 4 * |xs|
  {
    if xs != [] {
      IndexTableLength(xs[1..]);
    }
  }

  lemma RequestHeld(data: seq<byte>, m: Message)
    requires Holds(0x05, data, m)
    ensures m.Request? && |data| >= 4 + 4 * |m.indices| && GetBE(data[..4]) == |m.indices|
  {
    SplitPrefix(PutBE(4, |m.indices|), Concat(EncIndex, m.indices), data);
    IndexTableLength(m.indices);
    Widths();
    GetPut(4, |m.indices|);
  }

  // The count-driven loop over the indices.
  method DecodeIndices(rd: Reader, count: uint32) returns (r: Option<seq<uint32>>)
    requires rd.Valid()
    modifies rd
    ensures rd.Valid()
    ensures r.Some? <==> old(rd.pos) + 4 * count <= |rd.data|
    ensures r.Some? ==> |r.value| == count && rd.pos == old(rd.pos) + 4 * count
                        && rd.data[old(rd.pos)..rd.pos] == Concat(EncIndex, r.value)
  {
    ghost var start := rd.pos;
    var indices := new uint32[count];
    for i := 0 to count
      invariant rd.Valid() && rd.pos == start + 4 * i
      invariant rd.data[start..rd.pos] == Concat(EncIndex, indices[..i])
    {
      ghost var done := rd.pos;
      ghost var got: seq<uint32> := indices[..i];
      var idx := rd.ReadUint(4);
      if idx.None? { return None; }
      Widths();
      OneMoreItem<uint32>(EncIndex, rd.data, start, done, rd.pos, got, idx.value);
      indices[i] := idx.value;
      assert indices[..i + 1] == got + [idx.value];
    }
    assert indices[..count] == indices[..];
    r := Some(indices[..]);
  }

  method DecodeRequestBatch(data: seq<byte>) returns (r: Option<Message>)
    ensures r == Reading(0x05, data)
  {
    Widths();
    forall m | Holds(0x05, data, m)
      ensures m.Request? && |data| >= 4 + 4 * |m.indices| && GetBE(data[..4]) == |m.indices|
    {
      RequestHeld(data, m);
    }
    if |data| < 4 {
      return None;
    }
    var rd := new Reader(data);
    var count := rd.ReadUint(4);
    if count.None? { return None; }
    assert data[0..4] == data[..4];
    var indices := DecodeIndices(rd, count.value);
    if indices.None? { return None; }
    r := Some(Request(indices.value));
    assert Payload(r.value) == data[..4] + data[4..rd.pos] == data[..rd.pos];
    ReadingIs(0x05, data, r.value);
  }

  method DecodePiece(data: seq<byte>) returns (r: Option<Message>)
    ensures r == Reading(0x06, data)
  {
    if |data| < 4 {
      return None;
    }
    PutGet(data[..4]);
    GetBound(data[..4]);
    Widths();
    r := Some(Piece(GetBE(data[..4]), data[4..]));
    assert data[..4] + data[4..] == data;
    ReadingIs(0x06, data, r.value);
  }

  method DecodeCancel(data: seq<byte>) returns (r: Option<Message>)
    ensures r == Reading(0x07, data)
  {
    if |data| < 4 {
      return None;
    }
    PutGet(data[..4]);
    GetBound(data[..4]);
    Widths();
    r := Some(Cancel(GetBE(data[..4])));
    ReadingIs(0x07, data, r.value);
  }

  method DecodeSync(data: seq<byte>) returns (r: Option<Message>)
    ensures r == Reading(0x08, data)
  {
    if |data| < 17 {
      return None;
    }
    Widths();
    PutGet(data[..8]);
    GetBound(data[..8]);
    PutGet(data[9..17]);
    GetBound(data[9..17]);
    r := Some(Sync(GetBE(data[..8]), data[8], FromUint64(GetBE(data[9..17]))));
    assert Payload(r.value) == data[..8] + [data[8]] + data[9..17] == data[..17];
    ReadingIs(0x08, data, r.value);
  }

  // Enough bytes are left for one more address.
  predicate AddrFits(rest: seq<byte>) {
    |rest| >= 2 && |rest| >= 2 + GetBE(rest[..2])
  }

  lemma AddrAtStart(a: seq<byte>, rest: seq<byte>)
    requires AddrOk(a) && EncAddr(a) <= rest
    ensures AddrFits(rest)
  {
    assert rest[..2] == EncAddr(a)[..2] == PutBE(2, |a|);
    Widths();
    GetPut(2, |a|);
  }

  // Some list of that many addresses starts the bytes.
  ghost predicate HoldsAddrs(q: seq<byte>, count: nat) {
    exists ys :: |ys| == count && (forall y | y in ys :: AddrOk(y)) && Concat(EncAddr, ys) <= q
  }

  lemma Dropped(data: seq<byte>, start: nat, done: nat, a: seq<byte>)
    requires start <= done <= |data| && data[start..done] == a
    ensures a <= data[start..] && data[start..][|a|..] == data[done..]
  {}

  lemma NextAddrIn(q: seq<byte>, got: seq<seq<byte>>, ys: seq<seq<byte>>)
    requires Concat(EncAddr, got) <= q && Concat(EncAddr, ys) <= q && |got| < |ys|
    requires (forall a | a in got :: AddrOk(a)) && (forall y | y in ys :: AddrOk(y))
    ensures EncAddr(ys[|got|]) <= q[|Concat(EncAddr, got)|..]
  {
    AddrPrefixFree();
    NextItem(EncAddr, AddrOk, got, ys, q);
  }

  lemma NextAddr(data: seq<byte>, start: nat, done: nat, count: nat, got: seq<seq<byte>>)
    requires start <= done <= |data| && data[start..done] == Concat(EncAddr, got)
    requires |got| < count && forall a | a in got :: AddrOk(a)
    ensures HoldsAddrs(data[start..], count) ==> AddrFits(data[done..])
  {
    if HoldsAddrs(data[start..], count) {
      var ys :| |ys| == count && (forall y | y in ys :: AddrOk(y)) && Concat(EncAddr, ys) <= data[start..];
      Dropped(data, start, done, Concat(EncAddr, got));
      NextAddrIn(data[start..], got, ys);
      AddrAtStart(ys[|got|], data[done..]);
    }
  }

  method DecodeAddr(rd: Reader) returns (r: Option<seq<byte>>)
    requires rd.Valid()
    modifies rd
    ensures rd.Valid() && old(rd.pos) <= rd.pos
    ensures r.Some? <==> AddrFits(rd.data[old(rd.pos)..])
    ensures r.Some? ==> AddrOk(r.value) && rd.data[old(rd.pos)..rd.pos] == EncAddr(r.value)
  {
    ghost var start := rd.pos;
    var addrLen := rd.ReadUint(2);
    if addrLen.None? { return None; }
    assert rd.data[start..][..2] == rd.data[start..start + 2];
    Widths();
    var addr := rd.ReadFull(addrLen.value);
    if addr.None? { return None; }
    assert rd.data[start..rd.pos] == rd.data[start..start + 2] + rd.data[start + 2..rd.pos];
    r := addr;
  }

  // The count-driven loop over the addresses.
  method DecodeAddrs(rd: Reader, count: uint32) returns (r: Option<seq<seq<byte>>>)
    requires rd.Valid()
    modifies rd
    ensures rd.Valid() && old(rd.pos) <= rd.pos
    ensures r.Some? ==> |r.value| == count && rd.data[old(rd.pos)..rd.pos] == Concat(EncAddr, r.value)
    ensures r.Some? ==> forall a | a in r.value :: AddrOk(a)
    ensures r.None? ==> !HoldsAddrs(rd.data[old(rd.pos)..], count)
  {
    ghost var start := rd.pos;
    ghost var got: seq<seq<byte>> := [];
    var addrs := new seq<byte>[count];
    for i := 0 to count
      invariant rd.Valid() && start <= rd.pos
      invariant |got| == i && addrs[..i] == got
      invariant rd.data[start..rd.pos] == Concat(EncAddr, got)
      invariant forall a | a in got :: AddrOk(a)
    {
      ghost var done := rd.pos;
      NextAddr(rd.data, start, done, count, got);
      var addr := DecodeAddr(rd);
      if addr.None? { return None; }
      addrs[i] := addr.value;
      OneMoreItem(EncAddr, rd.data, start, done, rd.pos, got, addr.value);
      got := got + [addr.value];
    }
    assert addrs[..] == got;
    r := Some(addrs[..]);
  }

  lemma PeerListHeld(data: seq<byte>, m: Message)
    requires Holds(0x09, data, m)
    ensures m.PeerList? && |data| >= 4 && HoldsAddrs(data[4..], GetBE(data[..4]))
  {
    Widths();
    SplitPrefix(PutBE(4, |m.addrs|), Concat(EncAddr, m.addrs), data);
    GetPut(4, |m.addrs|);
  }

  method DecodePeerList(data: seq<byte>) returns (r: Option<Message>)
    ensures r == Reading(0x09, data)
  {
    Widths();
    forall m | Holds(0x09, data, m)
      ensures m.PeerList? && |data| >= 4 && HoldsAddrs(data[4..], GetBE(data[..4]))
    {
      PeerListHeld(data, m);
    }
    var rd := new Reader(data);
    var count := rd.ReadUint(4);
    if count.None? { return None; }
    var addrs := DecodeAddrs(rd, count.value);
    if addrs.None? { return None; }
    r := Some(PeerList(addrs.value));
    assert Payload(r.value) == data[..4] + data[4..rd.pos] == data[..rd.pos];
    ReadingIs(0x09, data, r.value);
  }

  method DecodePayload(code: byte, payload: seq<byte>) returns (r: Option<Message>)
    ensures r == Reading(code, payload)
  {
    match code {
      case 0x01 => r := DecodeHandshake(payload);
      case 0x02 => r := DecodeManifest(payload);
      case 0x03 => r := DecodeBitfield(payload);
      case 0x04 => r := DecodeHave(payload);
      case 0x05 => r := DecodeRequestBatch(payload);
      case 0x06 => r := DecodePiece(payload);
      case 0x07 => r := DecodeCancel(payload);
      case 0x08 => r := DecodeSync(payload);
      case 0x09 => r := DecodePeerList(payload);
      case 0x0A =>
        r := Some(Keepalive);
        ReadingIs(0x0A, payload, Keepalive);
      case _ =>
        r := None;
    }
  }

  // A frame of legal length that is all there is read as its body says.
  lemma ReadOneIs(s: seq<byte>, length: nat, body: seq<byte>)
    requires |s| >= 4 + length && GetBE(s[..4]) == length && 0 < length <= MAX_MESSAGE_SIZE
    requires body == s[4..4 + length]
    ensures ReadOne(s) ==
      match Reading(body[0], body[1..])
      case None => None
      case Some(m) => Some((m, s[4 + length..]))
  {
    assert s[4] == body[0] && s[5..4 + length] == body[1..];
  }

  // Reads one message off the connection.
  method ReadMessage(rd: Reader) returns (r: Option<Message>)
    requires rd.Valid()
    modifies rd
    ensures rd.Valid()
    ensures var spec := ReadOne(rd.data[old(rd.pos)..]);
            && (r.Some? <==> spec.Some?)
            && (r.Some? ==> spec.value == (r.value, rd.data[rd.pos..]))
  {
    ghost var s := rd.data[rd.pos..];
    var length := rd.ReadUint(4);
    if length.None? { return None; }
    assert s[..4] == rd.data[old(rd.pos)..rd.pos];
    if length.value == 0 { return None; }
    if length.value > MAX_MESSAGE_SIZE { return None; }
    var data := rd.ReadFull(length.value);
    if data.None? { return None; }
    assert s[4 + length.value..] == rd.data[rd.pos..];
    ReadOneIs(s, length.value, data.value);
    r := DecodePayload(data.value[0], data.value[1..]);
  }
}
