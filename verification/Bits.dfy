/** Single bits of a byte, addressed by a one-bit mask as the libraries do it. */
module Bits {

  function Mask(k: nat): bv8
    requires k < 8
  {
    if k == 0 then 1 else if k == 1 then 2 else if k == 2 then 4 else if k == 3 then 8
    else if k == 4 then 16 else if k == 5 then 32 else if k == 6 then 64 else 128
  }

  predicate Bit(b: bv8, k: nat)
    requires k < 8
  {
    b & Mask(k) != 0
  }

  function WithBit(b: bv8, k: nat, on: bool): bv8
    requires k < 8
  {
    if on then b | Mask(k) else b & !Mask(k)
  }

  lemma MaskShift(k: nat)
    requires k < 8
    ensures Mask(k) << 1 == if k == 7 then 0 else Mask(k + 1)
  {
  }

  /** The byte number and the mask point at bit n of a byte string of the given length. */
  ghost predicate PointsAt(n: nat, bytes: nat, byteNumber: nat, mask: bv8) {
    0 <= n - 8 * byteNumber < 8 && (byteNumber < bytes ==> mask == Mask(n - 8 * byteNumber))
  }

  /** Moving on to the next bit: shift the mask, or go to the next byte with mask 1. */
  lemma PointsAtNext(n: nat, bytes: nat, byteNumber: nat, mask: bv8)
    requires PointsAt(n, bytes, byteNumber, mask) && byteNumber < bytes
    ensures mask << 1 == 0 ==> PointsAt(n + 1, bytes, byteNumber + 1, 1)
    ensures mask << 1 != 0 ==> PointsAt(n + 1, bytes, byteNumber, mask << 1)
  {
    MaskShift(n - 8 * byteNumber);
  }

  lemma WithBitSets(b: bv8, k: nat, on: bool, j: nat)
    requires k < 8 && j < 8
    ensures Bit(WithBit(b, k, on), j) == if j == k then on else Bit(b, j)
  {
  }

  /** A byte is its eight bits. */
  lemma SameBitsSameByte(a: bv8, b: bv8)
    requires forall k :: 0 <= k < 8 ==> Bit(a, k) == Bit(b, k)
    ensures a == b
  {
    assert Bit(a, 0) == Bit(b, 0) && Bit(a, 1) == Bit(b, 1) && Bit(a, 2) == Bit(b, 2) && Bit(a, 3) == Bit(b, 3);
    assert Bit(a, 4) == Bit(b, 4) && Bit(a, 5) == Bit(b, 5) && Bit(a, 6) == Bit(b, 6) && Bit(a, 7) == Bit(b, 7);
  }

  /** The bits of a byte string, least significant bit of the first byte first. */
  function Wire(bytes: seq<bv8>): (bits: seq<bool>)
    ensures |bits| == 8 * |bytes|
  {
    if bytes == [] then [] else seq(8, k requires 0 <= k < 8 => Bit(bytes[0], k)) + Wire(bytes[1..])
  }

  lemma {:induction false} WireAt(bytes: seq<bv8>, j: nat, k: nat)
    requires j < |bytes| && k < 8
    ensures Wire(bytes)[8 * j + k] == Bit(bytes[j], k)
  {
    if j > 0 {
      WireAt(bytes[1..], j - 1, k);
      assert Wire(bytes)[8 * j + k] == Wire(bytes[1..])[8 * (j - 1) + k];
    }
  }

  /** Changing one bit of one byte changes one bit on the wire. */
  lemma {:induction false} WireUpdate(bytes: seq<bv8>, j: nat, k: nat, on: bool)
    requires j < |bytes| && k < 8
    ensures Wire(bytes[j := WithBit(bytes[j], k, on)]) == Wire(bytes)[8 * j + k := on]
  {
    var after := bytes[j := WithBit(bytes[j], k, on)];
    forall i | 0 <= i < 8 * |bytes| ensures Wire(after)[i] == Wire(bytes)[8 * j + k := on][i] {
      var q, r := i / 8, i % 8;
      WireAt(after, q, r);
      WireAt(bytes, q, r);
      if q == j { WithBitSets(bytes[j], k, on, r); }
    }
  }

  lemma WireInjective(a: seq<bv8>, b: seq<bv8>)
    requires Wire(a) == Wire(b)
    ensures a == b
  {
    assert |a| == |b|;
    forall i | 0 <= i < |a| ensures a[i] == b[i] {
      forall k | 0 <= k < 8 ensures Bit(a[i], k) == Bit(b[i], k) {
        WireAt(a, i, k);
        WireAt(b, i, k);
      }
      SameBitsSameByte(a[i], b[i]);
    }
  }

  /** A zero first byte is eight zero bits. */
  lemma ZeroByteBits(bytes: seq<bv8>)
    requires |bytes| >= 1
    ensures bytes[0] == 0 <==> Wire(bytes)[..8] == seq(8, _ => false)
  {
    var zero := seq(8, _ => false);
    forall k | 0 <= k < 8 ensures Wire(bytes)[..8][k] == Bit(bytes[0], k) { WireAt(bytes, 0, k); }
    if Wire(bytes)[..8] == zero {
      forall k | 0 <= k < 8 ensures Bit(bytes[0], k) == Bit(0, k) {
        assert Wire(bytes)[..8][k] == zero[k];
      }
      SameBitsSameByte(bytes[0], 0);
    } else {
      var k :| 0 <= k < 8 && Wire(bytes)[..8][k] != zero[k];
      assert Bit(bytes[0], k);
    }
  }

  /** Set or clear in place the bit that a byte index and a mask select. */
  method SetWireBit(bytes: array<bv8>, j: nat, mask: bv8, ghost k: nat, on: bool)
    requires j < bytes.Length && k < 8 && mask == Mask(k)
    modifies bytes
    ensures Wire(bytes[..]) == old(Wire(bytes[..]))[8 * j + k := on]
  {
    if on {
      bytes[j] := bytes[j] | mask;
    } else {
      bytes[j] := bytes[j] & !mask;
    }
    WireUpdate(old(bytes[..]), j, k, on);
  }
}
