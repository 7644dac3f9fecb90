/** Bytes, fixed-width integers and big-endian positional numbers. */
module Bytes {

  type byte = bv8

  const UINT16_SIZE: int := 0x1_0000
  const UINT32_SIZE: int := 0x1_0000_0000
  const UINT64_SIZE: int := 0x1_0000_0000_0000_0000
  const MAX_INT64: int := 0x7FFF_FFFF_FFFF_FFFF

  type uint32 = x: int | 0 <= x < 0x1_0000_0000
  type uint64 = x: int | 0 <= x < 0x1_0000_0000_0000_0000
  type int64 = x: int | -0x8000_0000_0000_0000 <= x < 0x8000_0000_0000_0000

  // A SHA-256 digest.
  type Hash = s: seq<byte> | |s| == 32 witness seq(32, _ => 0)

  // The random identifier of a peer.
  type PeerId = s: seq<byte> | |s| == 16 witness seq(16, _ => 0)

  datatype Option<+T> = None | Some(value: T)

  // Go's integer division truncates toward zero.
  function TruncDiv(a: int, b: int): int
    requires b > 0
  {
    if a >= 0 then a / b else -((-a) / b)
  }

  // The value an int64 holds after an addition that may have wrapped around.
  function WrapInt64(x: int): (r: int64)
    ensures (r - x) % UINT64_SIZE == 0
  {
    var y := x % UINT64_SIZE;
    if y > MAX_INT64 then y - UINT64_SIZE else y
  }

  // The conversions uint64(x) and int64(x).
  function ToUint64(x: int64): (r: uint64)
    ensures FromUint64(r) == x
  {
    if x >= 0 then x else x + UINT64_SIZE
  }

  function FromUint64(x: uint64): int64 {
    if x > MAX_INT64 then x - UINT64_SIZE else x
  }

  function Pow256(n: nat): (p: nat)
    ensures p > 0
  {
    if n == 0 then 1 else 256 * Pow256(n - 1)
  }

  // The n low-order bytes of v, most significant first; higher bytes are cut off.
  function PutBE(n: nat, v: nat): (r: seq<byte>)
    ensures |r| == n
  {
    if n == 0 then [] else PutBE(n - 1, v / 256) + [(v % 256) as byte]
  }

  function GetBE(s: seq<byte>): nat {
    if s == [] then 0 else GetBE(s[..|s| - 1]) * 256 + s[|s| - 1] as int
  }

  lemma Widths()
    ensures Pow256(1) == 256 && Pow256(2) == UINT16_SIZE
    ensures Pow256(4) == UINT32_SIZE && Pow256(8) == UINT64_SIZE
  {
    assert Pow256(1) == 256 * Pow256(0);
    assert Pow256(2) == 256 * Pow256(1);
    assert Pow256(3) == 256 * Pow256(2);
    assert Pow256(4) == 256 * Pow256(3);
    assert Pow256(5) == 256 * Pow256(4);
    assert Pow256(6) == 256 * Pow256(5);
    assert Pow256(7) == 256 * Pow256(6);
    assert Pow256(8) == 256 * Pow256(7);
  }

  lemma GetBound(s: seq<byte>)
    ensures GetBE(s) < Pow256(|s|)
  {
    if s != [] {
      GetBound(s[..|s| - 1]);
    }
  }

  lemma PutSplit(n: nat, v: nat) returns (low: byte)
    requires n > 0
    ensures PutBE(n, v) == PutBE(n - 1, v / 256) + [low] && low as int == v % 256
  {
    ByteRound(v % 256);
    low := (v % 256) as byte;
  }

  // The byte with a given value, counted up to.
  lemma {:induction false} ByteAt(x: nat) returns (b: byte)
    requires x < 256
    ensures b as int == x
  {
    if x == 0 {
      b := 0;
    } else {
      var before := ByteAt(x - 1);
      assert before != 255 by {
        assert (255 as byte) as int == 255;
      }
      NextByte(before);
      b := before + 1;
    }
  }

  lemma NextByte(b: byte)
    requires b != 255
    ensures (b + 1) as int == b as int + 1
  {}

  lemma SameByte(x: nat, b: byte)
    requires b as int == x < 256
    ensures b == x as byte
  {}

  lemma ByteRound(x: nat)
    requires x < 256
    ensures (x as byte) as int == x
  {
    var b := ByteAt(x);
    SameByte(x, b);
  }

  lemma GetSnoc(s: seq<byte>, b: byte)
    ensures GetBE(s + [b]) == GetBE(s) * 256 + b as int
  {
    assert (s + [b])[..|s|] == s;
  }

  lemma {:induction false} GetPut(n: nat, v: nat)
    requires v < Pow256(n)
    ensures GetBE(PutBE(n, v)) == v
  {
    if n > 0 {
      var low := PutSplit(n, v);
      GetPut(n - 1, v / 256);
      GetSnoc(PutBE(n - 1, v / 256), low);
    }
  }

  // A number comes back exactly when it fits the width; a wider one loses its high bytes.
  lemma GetPutExactly(n: nat, v: nat)
    ensures GetBE(PutBE(n, v)) <= v
    ensures GetBE(PutBE(n, v)) == v <==> v < Pow256(n)
  {
    GetBound(PutBE(n, v));
    if v < Pow256(n) {
      GetPut(n, v);
    }
  }

  lemma {:induction false} PutGet(s: seq<byte>)
    ensures PutBE(|s|, GetBE(s)) == s
  {
    if s != [] {
      var init := s[..|s| - 1];
      assert GetBE(s) / 256 == GetBE(init) && GetBE(s) % 256 == s[|s| - 1] as int;
      PutGet(init);
      assert init + [s[|s| - 1]] == s;
    }
  }
}
