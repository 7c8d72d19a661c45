/** The packed set of pieces a peer has, most significant bit first. */
module Bitfields {
  import opened Basics

  function Power(n: nat): nat { if n == 0 then 1 else 2 * Power(n - 1) }

  /** `b & (1 << bit) != 0`, by shifting b down. */
  predicate HasBit(b: nat, bit: nat) {
    if bit == 0 then b % 2 == 1 else HasBit(b / 2, bit - 1)
  }

  /** `b | (1 << bit)` on an integer of the given width. */
  function SetBit(b: nat, bit: nat, width: nat): (r: nat)
    requires bit < width && b < Power(width)
    ensures r < Power(width)
  {
    if bit == 0 then (if b % 2 == 1 then b else b + 1)
    else 2 * SetBit(b / 2, bit - 1, width - 1) + b % 2
  }

  /** Setting one bit changes that bit only. */
  lemma {:induction false} SetBitChangesOne(b: nat, bit: nat, width: nat, other: nat)
    requires bit < width && b < Power(width)
    ensures HasBit(SetBit(b, bit, width), other) <==> HasBit(b, other) || other == bit
  {
    var r := SetBit(b, bit, width);
    if bit == 0 {
      assert r / 2 == b / 2;
    } else {
      assert r / 2 == SetBit(b / 2, bit - 1, width - 1) && r % 2 == b % 2;
      if other > 0 { SetBitChangesOne(b / 2, bit - 1, width - 1, other - 1); }
    }
  }

  lemma {:induction false} ZeroHasNoBit(bit: nat)
    ensures !HasBit(0, bit)
  {
    if bit > 0 { ZeroHasNoBit(bit - 1); }
  }

  function SetInByte(b: byte, bit: nat): byte
    requires bit < 8
  {
    assert Power(8) == 2 * Power(7) == 4 * Power(6) == 8 * Power(5) == 16 * Power(4);
    SetBit(b, bit, 8)
  }

  lemma SetInByteChangesOne(b: byte, bit: nat, other: nat)
    requires bit < 8
    ensures HasBit(SetInByte(b, bit), other) <==> HasBit(b, other) || other == bit
  {
    assert Power(8) == 2 * Power(7) == 4 * Power(6) == 8 * Power(5) == 16 * Power(4);
    SetBitChangesOne(b, bit, 8, other);
  }

  predicate HasPieceIn(bits: bytes, index: nat) {
    index / 8 < |bits| && HasBit(bits[index / 8], 7 - index % 8)
  }

  const WEIGHTS: seq<nat> := [128, 64, 32, 16, 8, 4, 2, 1]

  /** A byte holds eight pieces, the first of them in its most significant bit. */
  lemma FirstPieceInHighBit(bits: bytes, k: nat, i: nat)
    requires k < |bits| && i < 8
    ensures HasPieceIn(bits, 8 * k + i) <==> bits[k] / WEIGHTS[i] % 2 == 1
  {
    BitByWeight(bits[k], 7 - i);
    hide HasBit;
  }

  lemma {:induction false} BitByWeight(b: nat, bit: nat)
    requires bit < 8
    ensures HasBit(b, bit) <==> b / WEIGHTS[7 - bit] % 2 == 1
  {
    if bit > 0 {
      BitByWeight(b / 2, bit - 1);
      HalfWeight(b, bit);
    }
  }

  lemma HalfWeight(b: nat, bit: nat)
    requires 0 < bit < 8
    ensures b / 2 / WEIGHTS[8 - bit] == b / WEIGHTS[7 - bit]
  {
    if bit == 1 {
      assert b / 2 / 1 == b / 2;
    } else if bit == 2 {
      assert b / 2 / 2 == b / 4;
    } else if bit == 3 {
      assert b / 2 / 4 == b / 8;
    } else if bit == 4 {
      assert b / 2 / 8 == b / 16;
    } else if bit == 5 {
      assert b / 2 / 16 == b / 32;
    } else if bit == 6 {
      assert b / 2 / 32 == b / 64;
    } else {
      assert b / 2 / 64 == b / 128;
    }
  }

  function WithPiece(bits: bytes, index: nat): bytes {
    if index / 8 < |bits|
    then bits[index / 8 := SetInByte(bits[index / 8], 7 - index % 8)]
    else bits
  }

  /** Setting a piece changes that piece only, and nothing when out of range. */
  lemma WithPieceChangesOne(bits: bytes, index: nat, other: nat)
    ensures |WithPiece(bits, index)| == |bits|
    ensures HasPieceIn(WithPiece(bits, index), other)
       <==> HasPieceIn(bits, other) || (other == index && index / 8 < |bits|)
  {
    if index / 8 < |bits| && other / 8 == index / 8 {
      SetInByteChangesOne(bits[index / 8], 7 - index % 8, 7 - other % 8);
    }
  }

  lemma EmptyHasNoPiece(count: nat, index: nat)
    ensures !HasPieceIn(Zeros(DivCeil(count, 8)), index)
  {
    ZeroHasNoBit(7 - index % 8);
  }

  class Bitfield {
    var bits: bytes

    constructor (bits: bytes)
      ensures this.bits == bits
    {
      this.bits := bits;
    }

    constructor FromPieceCount(count: nat)
      ensures bits == Zeros(DivCeil(count, 8))
    {
      bits := Zeros(DivCeil(count, 8));
    }

    function HasPiece(index: nat): (r: bool)
      reads this
      ensures r ==> index < 8 * |bits|
    {
      HasPieceIn(bits, index)
    }

    /** Set a piece; indices past the end are ignored. */
    method SetPiece(index: nat)
      modifies this
      ensures bits == WithPiece(old(bits), index)
      ensures forall i: nat :: HasPiece(i) <==> old(HasPiece(i)) || (i == index && index < 8 * |bits|)
    {
      forall i: nat
        ensures HasPieceIn(WithPiece(bits, index), i)
           <==> HasPieceIn(bits, i) || (i == index && index / 8 < |bits|)
      {
        WithPieceChangesOne(bits, index, i);
      }
      var byteIndex := index / 8;
      if byteIndex < |bits| {
        bits := bits[byteIndex := SetInByte(bits[byteIndex], 7 - index % 8)];
      }
    }
  }
}
