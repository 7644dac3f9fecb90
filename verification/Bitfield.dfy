/** The chunk bitfield (internal/chunk/store.go:254-267): one bit per chunk, bit 0 of byte 0
    being the most significant. */
module Bitfield {
  import opened Bytes

  function ByteLen(chunkCount: nat): nat {
    (chunkCount + 7) / 8
  }

  function Mask(i: nat): byte {
    (1 as byte) << (7 - i % 8)
  }

  predicate HasBit(bf: seq<byte>, i: nat)
    requires i / 8 < |bf|
  {
    bf[i / 8] & Mask(i) != 0
  }

  // The indices whose bit is set.
  ghost function Bits(bf: seq<byte>): set<nat> {
    set i: nat | i < 8 * |bf| && HasBit(bf, i)
  }

  function WithBit(bf: seq<byte>, i: nat): seq<byte>
    requires i / 8 < |bf|
  {
    bf[i / 8 := bf[i / 8] | Mask(i)]
  }

  lemma MaskCases(i: nat)
    ensures Mask(i) == match i % 8
                       case 0 => 128 case 1 => 64 case 2 => 32 case 3 => 16
                       case 4 => 8 case 5 => 4 case 6 => 2 case _ => 1
  {}

  // Bit 0 is the most significant bit of byte 0, bit 8 that of byte 1.
  lemma HasBitExactly(bf: seq<byte>, i: nat)
    requires i / 8 < |bf|
    ensures HasBit(bf, i) <==> bf[i / 8] & [128 as byte, 64, 32, 16, 8, 4, 2, 1][i % 8] != 0
  {
    MaskCases(i);
  }

  lemma OrMask(b: byte, i: nat, j: nat)
    ensures (b | Mask(i)) & Mask(j) != 0 <==> i % 8 == j % 8 || b & Mask(j) != 0
  {
    MaskCases(i);
    MaskCases(j);
  }

  // Setting bit i changes membership of i and of nothing else, padding bits included.
  lemma WithBitAddsExactly(bf: seq<byte>, i: nat)
    requires i / 8 < |bf|
    ensures Bits(WithBit(bf, i)) == Bits(bf) + {i}
  {
    forall j: nat | j / 8 < |bf|
      ensures HasBit(WithBit(bf, i), j) <==> j == i || HasBit(bf, j)
    {
      if j / 8 == i / 8 {
        OrMask(bf[i / 8], i, j);
      }
    }
  }

  lemma NoBits(bf: seq<byte>)
    requires forall k :: 0 <= k < |bf| ==> bf[k] == 0
    ensures Bits(bf) == {}
  {
    forall i: nat | i / 8 < |bf|
      ensures !HasBit(bf, i)
    {
      MaskCases(i);
    }
  }

  method MakeBitfield(chunkCount: nat) returns (bf: array<byte>)
    ensures fresh(bf) && bf.Length == ByteLen(chunkCount)
    ensures Bits(bf[..]) == {}
  {
    bf := new byte[ByteLen(chunkCount)](_ => 0);
    NoBits(bf[..]);
  }

  method SetBit(bf: array<byte>, i: nat)
    requires i / 8 < bf.Length
    modifies bf
    ensures bf[..] == WithBit(old(bf[..]), i)
    ensures Bits(bf[..]) == old(Bits(bf[..])) + {i}
  {
    WithBitAddsExactly(bf[..], i);
    bf[i / 8] := bf[i / 8] | Mask(i);
    assert bf[..] == WithBit(old(bf[..]), i);
  }
}
