/** Where each field of a frame stands (internal/protocol/message.go:1-125 and
    internal/protocol/codec.go:26-73 and 128-259), byte by byte. */
module Layout {
  import opened Bytes
  import opened Wire

  // Numbers go most significant byte first.
  lemma {:induction false} MostSignificantFirst(n: nat, v: nat)
    requires n > 0 && v < Pow256(n)
    ensures PutBE(n, v)[0] as int == v / Pow256(n - 1)
    ensures PutBE(n, v)[1..] == PutBE(n - 1, v % Pow256(n - 1))
  {
    if n == 1 {
      var b := PutSplit(1, v);
      assert PutBE(0, v / 256) == [];
      assert PutBE(1, v) == [b] && Pow256(0) == 1;
    } else {
      var b := PutSplit(n, v);
      var high := v / 256;
      MostSignificantFirst(n - 1, high);
      Shifted(v, Pow256(n - 2));
      assert Pow256(n - 1) == 256 * Pow256(n - 2);
      var low := v % Pow256(n - 1);
      var c := PutSplit(n - 1, low);
      assert PutBE(n - 1, low) == PutBE(n - 2, high % Pow256(n - 2)) + [c];
      ByteRound(v % 256);
      assert c == b;
    }
  }

  // Taking the last byte off commutes with taking the first ones off.
  lemma Shifted(v: nat, p: nat)
    requires p > 0
    ensures v / (256 * p) == (v / 256) / p
    ensures (v % (256 * p)) / 256 == (v / 256) % p && (v % (256 * p)) % 256 == v % 256
  {
    var high, low := v / 256, v % 256;
    var q, r := high / p, high % p;
    assert v == 256 * high + low && high == p * q + r;
    assert v == (256 * p) * q + (256 * r + low);
    assert 0 <= 256 * r + low < 256 * p;
    DivideUniquely(v, 256 * p, q, 256 * r + low);
  }

  lemma DivideUniquely(v: nat, d: nat, q: nat, r: nat)
    requires d > 0 && v == d * q + r && r < d
    ensures v / d == q && v % d == r
  {
    var q' := v / d;
    assert v == d * q' + v % d;
    Apart(d, q', v % d, q, r);
  }

  lemma Apart(d: nat, a: int, x: nat, b: int, y: nat)
    requires x < d && y < d && d * a + x == d * b + y
    ensures a == b && x == y
  {
    AtLeast(d, a - b);
  }

  lemma AtLeast(d: nat, k: int)
    ensures k >= 1 ==> d * k >= d
    ensures k <= -1 ==> d * k + d <= 0
  {
    if k >= 1 {
      assert d * (k - 1) >= 0;
    } else if k <= -1 {
      assert d * (-k - 1) >= 0;
    }
  }

  // Four length bytes that count everything after them, the type, the payload.
  lemma FrameLayout(m: Message)
    ensures var f := Frame(m);
            && |f| == 5 + |Payload(m)| && f[..4] == PutBE(4, |f| - 4) && f[5..] == Payload(m)
            && f[4] == match m
                       case Handshake(_, _) => 1 as byte
                       case Manifest(_, _, _, _, _) => 2
                       case Bitfield(_) => 3
                       case Have(_) => 4
                       case Request(_) => 5
                       case Piece(_, _) => 6
                       case Cancel(_) => 7
                       case Sync(_, _, _) => 8
                       case PeerList(_) => 9
                       case Keepalive => 10
  {}

  lemma ShortLayouts(m: Message)
    ensures m.Bitfield? ==> Payload(m) == m.bits
    ensures m.Have? ==> Payload(m) == PutBE(4, m.index)
    ensures m.Cancel? ==> Payload(m) == PutBE(4, m.index)
    ensures m.Keepalive? ==> Payload(m) == []
  {}

  lemma HandshakeLayout(m: Message)
    requires m.Handshake?
    ensures var p := Payload(m); |p| == 17 && p[..16] == m.peerId && p[16] == m.version
  {}

  // Items of equal size: item k starts at k times the size.
  lemma {:induction false} ItemAt<T>(enc: T -> seq<byte>, xs: seq<T>, size: nat, k: nat)
    requires k < |xs| && forall x :: |enc(x)| == size
    ensures k * size >= 0 && k * size + size <= |Concat(enc, xs)| == |xs| * size
    ensures Concat(enc, xs)[k * size..k * size + size] == enc(xs[k])
    decreases |xs|
  {
    var rest := Concat(enc, xs[1..]);
    assert Concat(enc, xs) == enc(xs[0]) + rest;
    assert |xs| * size == (|xs| - 1) * size + size;
    if k == 0 {
      ItemsSize(enc, xs[1..], size);
    } else {
      ItemAt(enc, xs[1..], size, k - 1);
      assert k * size == (k - 1) * size + size;
      assert Concat(enc, xs)[k * size..k * size + size] == rest[(k - 1) * size..(k - 1) * size + size];
    }
  }

  lemma {:induction false} ItemsSize<T>(enc: T -> seq<byte>, xs: seq<T>, size: nat)
    requires forall x :: |enc(x)| == size
    ensures |Concat(enc, xs)| == |xs| * size
    decreases |xs|
  {
    if xs != [] {
      ItemsSize(enc, xs[1..], size);
      assert |xs| * size == (|xs| - 1) * size + size;
    }
  }

  // Name length, name, file size, chunk size, chunk count; then per chunk its size and its hash.
  lemma ManifestLayout(m: Message, k: nat)
    requires m.Manifest? && k < |m.chunks|
    ensures var p, n := Payload(m), |m.fileName|; var at := 22 + n + 36 * k;
            && |p| == 22 + n + 36 * |m.chunks|
            && p[..2] == PutBE(2, n) && p[2..2 + n] == m.fileName
            && p[2 + n..10 + n] == PutBE(8, ToUint64(m.fileSize))
            && p[10 + n..18 + n] == PutBE(8, ToUint64(m.chunkSize))
            && p[18 + n..22 + n] == PutBE(4, m.chunkCount)
            && p[at..at + 4] == PutBE(4, m.chunks[k].size) && p[at + 4..at + 36] == m.chunks[k].hash
  {
    TableLayout(m, k);
    HeadLayout(m.fileName, m.fileSize, m.chunkSize, m.chunkCount, Concat(EncChunk, m.chunks));
  }

  lemma TableLayout(m: Message, k: nat)
    requires m.Manifest? && k < |m.chunks|
    ensures var p, at := Payload(m), 22 + |m.fileName| + 36 * k;
            && |p| == 22 + |m.fileName| + 36 * |m.chunks|
            && p[at..at + 4] == PutBE(4, m.chunks[k].size) && p[at + 4..at + 36] == m.chunks[k].hash
  {
    var head := ManifestHead(m.fileName, m.fileSize, m.chunkSize, m.chunkCount);
    var table := Concat(EncChunk, m.chunks);
    ItemAt(EncChunk, m.chunks, 36, k);
    RowLayout(m.chunks[k]);
    Row(head, table, 36 * k, PutBE(4, m.chunks[k].size), m.chunks[k].hash);
  }

  lemma RowLayout(c: ChunkInfo)
    ensures EncChunk(c) == PutBE(4, c.size) + c.hash && |EncChunk(c)| == 36 && |PutBE(4, c.size)| == 4
  {}

  // A row of a table that stands behind a head, field by field.
  lemma Row(head: seq<byte>, table: seq<byte>, from: nat, first: seq<byte>, second: seq<byte>)
    requires from + |first| + |second| <= |table|
    requires table[from..from + |first| + |second|] == first + second
    ensures var p, at, next := head + table, |head| + from, |head| + from + |first|;
            p[at..next] == first && p[next..next + |second|] == second
  {
    var p, at, row := head + table, |head| + from, |first| + |second|;
    assert p[at..at + row] == first + second;
    assert p[at..at + |first|] == (first + second)[..|first|];
    assert p[at + |first|..at + row] == (first + second)[|first|..];
  }

  lemma HeadLayout(name: seq<byte>, fileSize: int64, chunkSize: int64, count: uint32, table: seq<byte>)
    ensures var p, n := ManifestHead(name, fileSize, chunkSize, count) + table, |name|;
            && p[..2] == PutBE(2, n) && p[2..2 + n] == name
            && p[2 + n..10 + n] == PutBE(8, ToUint64(fileSize))
            && p[10 + n..18 + n] == PutBE(8, ToUint64(chunkSize))
            && p[18 + n..22 + n] == PutBE(4, count)
  {
    Fields(PutBE(2, |name|), name, PutBE(8, ToUint64(fileSize)), PutBE(8, ToUint64(chunkSize)), PutBE(4, count),
           table);
  }

  lemma Fields(a: seq<byte>, b: seq<byte>, c: seq<byte>, d: seq<byte>, e: seq<byte>, rest: seq<byte>)
    ensures var p := a + b + c + d + e + rest; var i := |a| + |b|; var j := i + |c|; var k := j + |d|;
            && p[..|a|] == a && p[|a|..i] == b && p[i..j] == c && p[j..k] == d && p[k..k + |e|] == e
  {}

  // A count and four bytes for each index.
  lemma RequestLayout(m: Message, k: nat)
    requires m.Request? && k < |m.indices|
    ensures var p := Payload(m);
            && |p| == 4 + 4 * |m.indices| && p[..4] == PutBE(4, |m.indices|)
            && p[4 + 4 * k..8 + 4 * k] == PutBE(4, m.indices[k])
  {
    ItemAt<uint32>(EncIndex, m.indices, 4, k);
    var p, table := Payload(m), Concat(EncIndex, m.indices);
    assert p[4 + 4 * k..8 + 4 * k] == table[4 * k..4 * k + 4];
  }

  lemma PieceLayout(m: Message)
    requires m.Piece?
    ensures var p := Payload(m); |p| == 4 + |m.data| && p[..4] == PutBE(4, m.index) && p[4..] == m.data
  {}

  lemma SyncLayout(m: Message)
    requires m.Sync?
    ensures var p := Payload(m);
            && |p| == 17 && p[..8] == PutBE(8, m.playbackTime) && p[8] == m.state
            && p[9..] == PutBE(8, ToUint64(m.unixMs))
  {}

  // A count; then per address its length in two bytes and the address.
  lemma PeerListLayout(m: Message, k: nat)
    requires m.PeerList? && k < |m.addrs|
    ensures var p, a := Payload(m), m.addrs[k]; var at := 4 + |Concat(EncAddr, m.addrs[..k])|;
            && p[..4] == PutBE(4, |m.addrs|) && at + 2 + |a| <= |p|
            && p[at..at + 2] == PutBE(2, |a|) && p[at + 2..at + 2 + |a|] == a
  {
    SplitAt(m.addrs, k);
    Between(PutBE(4, |m.addrs|), Concat(EncAddr, m.addrs[..k]), PutBE(2, |m.addrs[k]|), m.addrs[k],
            Concat(EncAddr, m.addrs[k + 1..]));
  }

  lemma Between(head: seq<byte>, before: seq<byte>, length: seq<byte>, item: seq<byte>, after: seq<byte>)
    ensures var p, at := head + (before + ((length + item) + after)), |head| + |before|;
            var next := at + |length|;
            && p[..|head|] == head && p[at..next] == length && p[next..next + |item|] == item
  {
    var p, at := head + (before + ((length + item) + after)), |head| + |before|;
    assert p == (head + before) + (length + (item + after));
    assert p[at..] == length + (item + after);
    assert p[at + |length|..] == item + after;
  }

  lemma {:induction false} SplitAt(xs: seq<seq<byte>>, k: nat)
    requires k < |xs|
    ensures Concat(EncAddr, xs) == Concat(EncAddr, xs[..k]) + (EncAddr(xs[k]) + Concat(EncAddr, xs[k + 1..]))
    decreases k
  {
    if k == 0 {
      assert xs[..0] == [];
    } else {
      SplitAt(xs[1..], k - 1);
      assert xs[..k][1..] == xs[1..][..k - 1] && xs[..k][0] == xs[0] && xs[1..][k..] == xs[k + 1..];
    }
  }
}
