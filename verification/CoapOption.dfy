/**
 The value of a CoAP block option (RFC 7959, section 2.2): block number, a flag for more
 blocks, and the size exponent, in one to three bytes.
 */
module CoapOption {
  import opened Bytes

  /** The size exponent as sendBlock computes it, (size >> 5) & 7. */
  function SizeExponent(size: nat): nat { size / 32 % 8 }

  /** The size that an exponent stands for. */
  function SizeOf(szx: nat): nat { if szx == 0 then 16 else 2 * SizeOf(szx - 1) }

  predicate Standard(size: nat) {
    size == 16 || size == 32 || size == 64 || size == 128 || size == 256 || size == 512 || size == 1024
  }

  /** That shortcut is right for the sizes up to the client's maximum of 64, and for no standard size above. */
  lemma ExponentRight(size: nat)
    requires Standard(size)
    ensures SizeOf(SizeExponent(size)) == size <==> size <= 64
  {
    assert SizeOf(1) == 32 && SizeOf(2) == 64 && SizeOf(4) == 256;
  }

  /** The option value of sendBlock and sendBlockRequest. */
  function Encode(num: nat, more: bool, szx: nat): (v: seq<Byte>)
    requires szx < 8
    ensures 1 <= |v| <= 3
  {
    var o0 := num / 4096 % 16;
    var o1 := num / 16 % 256;
    var o2 := num % 16 * 16 + (if more then 8 else 0) + szx;
    if o0 > 0 then [o0, o1, o2] else if o1 > 0 then [o1, o2] else [o2]
  }

  /** The value read as one big-endian number. */
  function BigEndian(v: seq<Byte>): nat
    decreases |v|
  {
    if v == [] then 0 else 256 * BigEndian(v[..|v| - 1]) + v[|v| - 1]
  }

  /** getBlockNum, getBlockMore and the exponent of getBlockSize. */
  function BlockNum(v: seq<Byte>): nat { BigEndian(v) / 16 }

  predicate BlockMore(v: seq<Byte>) { v != [] && v[|v| - 1] / 8 % 2 == 1 }

  function BlockSzx(v: seq<Byte>): nat
    requires v != []
  {
    v[|v| - 1] % 8
  }

  lemma BigEndianAppend(v: seq<Byte>, b: Byte)
    ensures BigEndian(v + [b]) == 256 * BigEndian(v) + b
  {
    assert (v + [b])[..|v|] == v;
  }

  lemma BigEndianOf(a: Byte, b: Byte, c: Byte)
    ensures BigEndian([c]) == c && BigEndian([b, c]) == 256 * b + c && BigEndian([a, b, c]) == 65536 * a + 256 * b + c
  {
    BigEndianAppend([], c);
    BigEndianAppend([], b);
    BigEndianAppend([], a);
    BigEndianAppend([b], c);
    BigEndianAppend([a], b);
    BigEndianAppend([a, b], c);
    assert [] + [a] == [a] && [] + [b] == [b] && [] + [c] == [c];
    assert [b] + [c] == [b, c] && [a] + [b] == [a, b] && [a, b] + [c] == [a, b, c];
  }

  lemma Digits(num: nat)
    requires num < 65536
    ensures num == num / 4096 % 16 * 4096 + num / 16 % 256 * 16 + num % 16
  {
  }

  /** Reading an option gives what was written, up to the 16 bits of block number that are written. */
  lemma OptionRoundTrip(num: nat, more: bool, szx: nat)
    requires szx < 8
    ensures var v := Encode(num, more, szx);
      && (BlockNum(v) == num <==> num < 65536)
      && (BlockMore(v) <==> more) && BlockSzx(v) == szx
  {
    var o0 := num / 4096 % 16;
    var o1 := num / 16 % 256;
    var o2 := num % 16 * 16 + (if more then 8 else 0) + szx;
    BigEndianOf(o0, o1, o2);
    Low(num % 16, more, szx);
    var n := BigEndian(Encode(num, more, szx));
    assert n == 65536 * o0 + 256 * o1 + o2;
    assert n / 16 == o0 * 4096 + o1 * 16 + num % 16;
    if num < 65536 { Digits(num); }
  }

  lemma Low(n: nat, more: bool, szx: nat)
    requires n < 16 && szx < 8
    ensures var o := n * 16 + (if more then 8 else 0) + szx;
      o / 16 == n && o % 8 == szx && (o / 8 % 2 == 1 <==> more)
  {
  }
}
