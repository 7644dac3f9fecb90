/** The wire format (internal/protocol/message.go, internal/protocol/codec.go): what each message
    looks like on the connection, and what it means for a byte string to hold a message. */
module Wire {
  import opened Bytes

  const MAX_MESSAGE_SIZE: int := 16 * 1024 * 1024

  datatype ChunkInfo = ChunkInfo(size: uint32, hash: Hash)

  // Go strings are byte strings; a float64 travels as its 64-bit pattern.
  datatype Message =
    | Handshake(peerId: PeerId, version: byte)
    | Manifest(fileName: seq<byte>, fileSize: int64, chunkSize: int64, chunkCount: uint32, chunks: seq<ChunkInfo>)
    | Bitfield(bits: seq<byte>)
    | Have(index: uint32)
    | Request(indices: seq<uint32>)
    | Piece(index: uint32, data: seq<byte>)
    | Cancel(index: uint32)
    | Sync(playbackTime: uint64, state: byte, unixMs: int64)
    | PeerList(addrs: seq<seq<byte>>)
    | Keepalive

  function TypeCode(m: Message): byte {
    match m
    case Handshake(_, _) => 0x01
    case Manifest(_, _, _, _, _) => 0x02
    case Bitfield(_) => 0x03
    case Have(_) => 0x04
    case Request(_) => 0x05
    case Piece(_, _) => 0x06
    case Cancel(_) => 0x07
    case Sync(_, _, _) => 0x08
    case PeerList(_) => 0x09
    case Keepalive => 0x0A
  }

  function EncIndex(v: uint32): seq<byte> {
    PutBE(4, v)
  }

  function EncChunk(c: ChunkInfo): seq<byte> {
    PutBE(4, c.size) + c.hash
  }

  function EncAddr(a: seq<byte>): seq<byte> {
    PutBE(2, |a|) + a
  }

  // The items of a list, encoded one after another.
  function Concat<T>(enc: T -> seq<byte>, xs: seq<T>): seq<byte> {
    if xs == [] then [] else enc(xs[0]) + Concat(enc, xs[1..])
  }

  // Everything in a manifest before the chunk table.
  function ManifestHead(name: seq<byte>, fileSize: int64, chunkSize: int64, count: uint32): (r: seq<byte>)
    ensures |r| == 22 + |name|
  {
    PutBE(2, |name|) + name + PutBE(8, ToUint64(fileSize)) + PutBE(8, ToUint64(chunkSize)) + PutBE(4, count)
  }

  function Payload(m: Message): seq<byte> {
    match m
    case Handshake(id, version) => id + [version]
    case Manifest(name, fileSize, chunkSize, count, chunks) =>
      ManifestHead(name, fileSize, chunkSize, count) + Concat(EncChunk, chunks)
    case Bitfield(bits) => bits
    case Have(i) => PutBE(4, i)
    case Request(indices) => PutBE(4, |indices|) + Concat(EncIndex, indices)
    case Piece(i, data) => PutBE(4, i) + data
    case Cancel(i) => PutBE(4, i)
    case Sync(time, state, ms) => PutBE(8, time) + [state] + PutBE(8, ToUint64(ms))
    case PeerList(addrs) => PutBE(4, |addrs|) + Concat(EncAddr, addrs)
    case Keepalive => []
  }

  // Length prefix (type byte and payload), type byte, payload.
  function Frame(m: Message): seq<byte> {
    PutBE(4, 1 + |Payload(m)|) + [TypeCode(m)] + Payload(m)
  }

  predicate AddrOk(a: seq<byte>) {
    |a| < UINT16_SIZE
  }

  // The message's counts and lengths fit the fields that carry them.
  predicate WellFormed(m: Message) {
    match m
    case Manifest(name, _, _, count, chunks) => |name| < UINT16_SIZE && |chunks| == count
    case Request(indices) => |indices| < UINT32_SIZE
    case PeerList(addrs) => |addrs| < UINT32_SIZE && forall a | a in addrs :: AddrOk(a)
    case _ => true
  }

  // Well formed and small enough to be read back.
  predicate Sendable(m: Message) {
    WellFormed(m) && 1 + |Payload(m)| <= MAX_MESSAGE_SIZE
  }

  // A payload of the given type holds m. BITFIELD and PIECE take the whole payload; the other
  // types leave trailing bytes unread.
  ghost predicate Holds(code: byte, payload: seq<byte>, m: Message) {
    && TypeCode(m) == code
    && WellFormed(m)
    && if m.Bitfield? || m.Piece? then Payload(m) == payload else Payload(m) <= payload
  }

  // ---------------------------------------------------------------- unique reading

  ghost predicate Compatible(a: seq<byte>, b: seq<byte>) {
    a <= b || b <= a
  }

  ghost predicate PrefixFree<T(!new)>(enc: T -> seq<byte>, ok: T -> bool) {
    forall x, y | ok(x) && ok(y) && Compatible(enc(x), enc(y)) :: x == y
  }

  lemma PutInjective(n: nat, v: nat, w: nat)
    requires v < Pow256(n) && w < Pow256(n) && PutBE(n, v) == PutBE(n, w)
    ensures v == w
  {
    GetPut(n, v);
    GetPut(n, w);
  }

  lemma IndexPrefixFree()
    ensures PrefixFree(EncIndex, (x: uint32) => true)
  {
    forall x: uint32, y: uint32 | Compatible(EncIndex(x), EncIndex(y))
      ensures x == y
    {
      Widths();
      PutInjective(4, x, y);
    }
  }

  lemma ChunkPrefixFree()
    ensures PrefixFree(EncChunk, (x: ChunkInfo) => true)
  {
    forall x: ChunkInfo, y: ChunkInfo | Compatible(EncChunk(x), EncChunk(y))
      ensures x == y
    {
      Widths();
      assert EncChunk(x)[..4] == PutBE(4, x.size) && EncChunk(y)[..4] == PutBE(4, y.size);
      assert EncChunk(x)[4..] == x.hash && EncChunk(y)[4..] == y.hash;
      PutInjective(4, x.size, y.size);
    }
  }

  lemma AddrPrefixFree()
    ensures PrefixFree(EncAddr, AddrOk)
  {
    forall x, y | AddrOk(x) && AddrOk(y) && Compatible(EncAddr(x), EncAddr(y))
      ensures x == y
    {
      Widths();
      assert EncAddr(x)[..2] == PutBE(2, |x|) && EncAddr(y)[..2] == PutBE(2, |y|);
      PutInjective(2, |x|, |y|);
      assert EncAddr(x)[2..] == x && EncAddr(y)[2..] == y;
    }
  }

  lemma {:induction false} ConcatSnoc<T>(enc: T -> seq<byte>, xs: seq<T>, x: T)
    ensures Concat(enc, xs + [x]) == Concat(enc, xs) + enc(x)
  {
    if xs == [] {
      assert [x][1..] == [];
    } else {
      assert (xs + [x])[1..] == xs[1..] + [x];
      ConcatSnoc(enc, xs[1..], x);
    }
  }

  // Two lists read from the same bytes agree as far as the shorter one goes, and what is left
  // of the longer one starts where the shorter one ends.
  lemma {:induction false} ConcatAgree<T(!new)>(
    enc: T -> seq<byte>, ok: T -> bool, xs: seq<T>, ys: seq<T>, q: seq<byte>)
    requires PrefixFree(enc, ok)
    requires (forall x | x in xs :: ok(x)) && (forall y | y in ys :: ok(y))
    requires Concat(enc, xs) <= q && Concat(enc, ys) <= q && |xs| <= |ys|
    ensures xs == ys[..|xs|]
    ensures Concat(enc, ys[|xs|..]) <= q[|Concat(enc, xs)|..]
  {
    if xs == [] {
      assert ys[0..] == ys;
    } else {
      var x, y := enc(xs[0]), enc(ys[0]);
      SplitPrefix(x, Concat(enc, xs[1..]), q);
      SplitPrefix(y, Concat(enc, ys[1..]), q);
      assert Compatible(x, y) && xs[0] == ys[0];
      ConcatAgree(enc, ok, xs[1..], ys[1..], q[|x|..]);
      assert ys[1..][|xs| - 1..] == ys[|xs|..];
      assert xs == [xs[0]] + xs[1..] && ys[..|xs|] == [ys[0]] + ys[1..][..|xs| - 1];
      assert q[|x|..][|Concat(enc, xs[1..])|..] == q[|Concat(enc, xs)|..];
    }
  }

  // After a shorter list read from the same bytes comes the longer list's next item.
  lemma NextItem<T(!new)>(enc: T -> seq<byte>, ok: T -> bool, xs: seq<T>, ys: seq<T>, q: seq<byte>)
    requires PrefixFree(enc, ok)
    requires (forall x | x in xs :: ok(x)) && (forall y | y in ys :: ok(y))
    requires Concat(enc, xs) <= q && Concat(enc, ys) <= q && |xs| < |ys|
    ensures enc(ys[|xs|]) <= q[|Concat(enc, xs)|..]
  {
    ConcatAgree(enc, ok, xs, ys, q);
    var left := ys[|xs|..];
    assert Concat(enc, left) == enc(left[0]) + Concat(enc, left[1..]);
    SplitPrefix(enc(left[0]), Concat(enc, left[1..]), q[|Concat(enc, xs)|..]);
  }

  // A counted list: the count field and then the items.
  lemma ListAgree<T(!new)>(enc: T -> seq<byte>, ok: T -> bool, xs: seq<T>, ys: seq<T>, q: seq<byte>)
    requires PrefixFree(enc, ok)
    requires (forall x | x in xs :: ok(x)) && (forall y | y in ys :: ok(y))
    requires |xs| < UINT32_SIZE && |ys| < UINT32_SIZE
    requires PutBE(4, |xs|) + Concat(enc, xs) <= q && PutBE(4, |ys|) + Concat(enc, ys) <= q
    ensures xs == ys
  {
    Widths();
    assert PutBE(4, |xs|) == q[..4] == PutBE(4, |ys|);
    PutInjective(4, |xs|, |ys|);
    assert Concat(enc, xs) == (PutBE(4, |xs|) + Concat(enc, xs))[4..] <= q[4..];
    assert Concat(enc, ys) == (PutBE(4, |ys|) + Concat(enc, ys))[4..] <= q[4..];
    ConcatAgree(enc, ok, xs, ys, q[4..]);
  }

  // Splitting a prefix whose first part has a known length.
  lemma SplitPrefix(a: seq<byte>, b: seq<byte>, q: seq<byte>)
    requires a + b <= q
    ensures |a| <= |q| && a == q[..|a|] && b <= q[|a|..]
  {
    assert (a + b)[..|a|] == a && (a + b)[|a|..] == b;
  }

  lemma HeadAgree(n: seq<byte>, fs: int64, cs: int64, c: uint32, rest: seq<byte>,
                  n': seq<byte>, fs': int64, cs': int64, c': uint32, rest': seq<byte>, q: seq<byte>)
    requires |n| < UINT16_SIZE && |n'| < UINT16_SIZE
    requires ManifestHead(n, fs, cs, c) + rest <= q && ManifestHead(n', fs', cs', c') + rest' <= q
    ensures n == n' && fs == fs' && cs == cs' && c == c'
  {
    Widths();
    var h, h' := ManifestHead(n, fs, cs, c), ManifestHead(n', fs', cs', c');
    SplitPrefix(h, rest, q);
    SplitPrefix(h', rest', q);
    assert PutBE(2, |n|) == h[..2] == q[..2] == h'[..2] == PutBE(2, |n'|);
    PutInjective(2, |n|, |n'|);
    assert h == h';
    var k := |n|;
    assert n == h[2..2 + k] == n';
    assert PutBE(8, ToUint64(fs)) == h[2 + k..10 + k] == PutBE(8, ToUint64(fs'));
    assert PutBE(8, ToUint64(cs)) == h[10 + k..18 + k] == PutBE(8, ToUint64(cs'));
    assert PutBE(4, c) == h[18 + k..22 + k] == PutBE(4, c');
    PutInjective(8, ToUint64(fs), ToUint64(fs'));
    PutInjective(8, ToUint64(cs), ToUint64(cs'));
    PutInjective(4, c, c');
  }

  lemma TableAgree(head: seq<byte>, chunks: seq<ChunkInfo>, chunks': seq<ChunkInfo>, q: seq<byte>)
    requires |chunks| == |chunks'|
    requires head + Concat(EncChunk, chunks) <= q && head + Concat(EncChunk, chunks') <= q
    ensures chunks == chunks'
  {
    SplitPrefix(head, Concat(EncChunk, chunks), q);
    SplitPrefix(head, Concat(EncChunk, chunks'), q);
    ChunkPrefixFree();
    ConcatAgree(EncChunk, (x: ChunkInfo) => true, chunks, chunks', q[|head|..]);
  }

  lemma IndexAgree(v: uint32, rest: seq<byte>, w: uint32, rest': seq<byte>, q: seq<byte>)
    requires PutBE(4, v) + rest <= q && PutBE(4, w) + rest' <= q
    ensures v == w
  {
    Widths();
    SplitPrefix(PutBE(4, v), rest, q);
    SplitPrefix(PutBE(4, w), rest', q);
    PutInjective(4, v, w);
  }

  // A payload holds at most one message: no two messages can be confused on the wire.
  lemma UniqueReading(code: byte, payload: seq<byte>, m: Message, m': Message)
    requires Holds(code, payload, m) && Holds(code, payload, m')
    ensures m == m'
  {
    match m {
      case Handshake(id, version) =>
        assert Payload(m) == payload[..17] == Payload(m');
        assert id == Payload(m)[..16] == m'.peerId;
        assert version == Payload(m)[16] == m'.version;
      case Manifest(n, fs, cs, c, chunks) =>
        HeadAgree(n, fs, cs, c, Concat(EncChunk, chunks),
                  m'.fileName, m'.fileSize, m'.chunkSize, m'.chunkCount, Concat(EncChunk, m'.chunks), payload);
        TableAgree(ManifestHead(n, fs, cs, c), chunks, m'.chunks, payload);
      case Bitfield(_) =>
      case Have(i) =>
        IndexAgree(i, [], m'.index, [], payload);
      case Request(indices) =>
        IndexPrefixFree();
        ListAgree(EncIndex, (x: uint32) => true, indices, m'.indices, payload);
      case Piece(i, data) =>
        IndexAgree(i, data, m'.index, m'.data, payload);
        assert data == payload[4..] == m'.data;
      case Cancel(i) =>
        IndexAgree(i, [], m'.index, [], payload);
      case Sync(time, state, ms) =>
        Widths();
        assert Payload(m) == payload[..17] == Payload(m');
        assert PutBE(8, time) == Payload(m)[..8] == PutBE(8, m'.playbackTime);
        assert state == Payload(m)[8] == m'.state;
        assert PutBE(8, ToUint64(ms)) == Payload(m)[9..] == PutBE(8, ToUint64(m'.unixMs));
        PutInjective(8, time, m'.playbackTime);
        PutInjective(8, ToUint64(ms), ToUint64(m'.unixMs));
      case PeerList(addrs) =>
        AddrPrefixFree();
        ListAgree(EncAddr, AddrOk, addrs, m'.addrs, payload);
      case Keepalive =>
    }
  }

  lemma {:induction false} ChunkTableLength(chunks: seq<ChunkInfo>)
    ensures |Concat(EncChunk, chunks)| == 36 * |chunks|
  {
    if chunks != [] {
      ChunkTableLength(chunks[1..]);
    }
  }

  // The message a payload holds, if any.
  ghost function Reading(code: byte, payload: seq<byte>): (r: Option<Message>)
    ensures r.Some? ==> Holds(code, payload, r.value)
    ensures r.None? ==> forall m :: !Holds(code, payload, m)
  {
    if exists m :: Holds(code, payload, m) then
      var m :| Holds(code, payload, m);
      Some(m)
    else None
  }

  lemma ReadingIs(code: byte, payload: seq<byte>, m: Message)
    requires Holds(code, payload, m)
    ensures Reading(code, payload) == Some(m)
  {
    UniqueReading(code, payload, Reading(code, payload).value, m);
  }
}
