/**
 The bit-level steps of a Bluetooth low energy advertisement: bit order, whitening and
 CRC, as libraries/BTLE computes them byte by byte, against the shift registers of
 Bluetooth Core 4.0, Vol 6 Part B.
 */
module BtleCodec {
  import opened Bits

  // ---------- wire bit order ----------

  /** The bits of a byte in reverse. */
  function SwapByte(a: bv8): bv8 {
    (if a & 0x80 != 0 then 0x01 else 0) | (if a & 0x40 != 0 then 0x02 else 0) |
    (if a & 0x20 != 0 then 0x04 else 0) | (if a & 0x10 != 0 then 0x08 else 0) |
    (if a & 0x08 != 0 then 0x10 else 0) | (if a & 0x04 != 0 then 0x20 else 0) |
    (if a & 0x02 != 0 then 0x40 else 0) | (if a & 0x01 != 0 then 0x80 else 0)
  }

  /** The first bit on the air is the highest of the byte, which then holds the lowest one. */
  lemma BitOrder(a: bv8, k: nat)
    requires k < 8
    ensures Bit(SwapByte(a), k) == Bit(a, 7 - k)
  {
  }

  lemma SwapTwice(a: bv8)
    ensures SwapByte(SwapByte(a)) == a
  {
  }

  function Swapped(s: seq<bv8>): (r: seq<bv8>)
    ensures |r| == |s|
  {
    seq(|s|, i requires 0 <= i < |s| => SwapByte(s[i]))
  }

  lemma SwappedTwice(s: seq<bv8>)
    ensures Swapped(Swapped(s)) == s
  {
    forall i | 0 <= i < |s| ensures SwapByte(SwapByte(s[i])) == s[i] { SwapTwice(s[i]); }
  }

  // ---------- whitening ----------

  /** One step of the whitening register, its output bit collected at the mask. */
  function KeyStep(lfsr: bv8, res: bv8, mask: bv8): (bv8, bv8) {
    if lfsr & 0x01 != 0 then ((lfsr ^ 0x88) >> 1, res | mask) else (lfsr >> 1, res)
  }

  /** n steps, from the given mask on. */
  function KeySteps(lfsr: bv8, res: bv8, mask: bv8, n: nat): (bv8, bv8)
    decreases n, lfsr
  {
    if n == 0 then (lfsr, res)
    else
      var (l, r) := KeyStep(lfsr, res, mask);
      KeySteps(l, r, mask << 1, n - 1)
  }

  const BITS: nat := 8

  /** The register after a byte of output, and that byte. */
  function KeyByte(lfsr: bv8): (bv8, bv8) { KeySteps(lfsr, 0, 1, BITS) }

  /** The register before byte i of the keystream. */
  function LfsrAt(lfsr: bv8, i: nat): bv8 {
    if i == 0 then lfsr else KeyByte(LfsrAt(lfsr, i - 1)).0
  }

  /** Byte i of the keystream. */
  function KeyAt(lfsr: bv8, i: nat): bv8 { KeyByte(LfsrAt(lfsr, i)).1 }

  function Whitened(s: seq<bv8>, lfsr: bv8): (r: seq<bv8>)
    ensures |r| == |s|
  {
    seq(|s|, i requires 0 <= i < |s| => s[i] ^ KeyAt(lfsr, i))
  }

  lemma XorTwice(a: bv8, k: bv8)
    ensures a ^ k ^ k == a
  {
  }

  /** Whitening undoes itself. */
  lemma WhitenedTwice(s: seq<bv8>, lfsr: bv8)
    ensures Whitened(Whitened(s, lfsr), lfsr) == s
  {
    forall i | 0 <= i < |s| ensures s[i] ^ KeyAt(lfsr, i) ^ KeyAt(lfsr, i) == s[i] { XorTwice(s[i], KeyAt(lfsr, i)); }
  }

  // ---------- the whitening register of section 3.2 ----------

  /** Positions 0 to 6; the output is position 6, fed back into positions 0 and 4. */
  datatype Lfsr = Lfsr(p0: bool, p1: bool, p2: bool, p3: bool, p4: bool, p5: bool, p6: bool)

  function Clock(r: Lfsr): Lfsr { Lfsr(r.p6, r.p0, r.p1, r.p2, r.p3 != r.p6, r.p4, r.p5) }

  /** Position 0 is one, positions 1 to 6 hold the channel index, most significant bit first. */
  function Initial(channel: bv8): Lfsr {
    Lfsr(true, channel & 32 != 0, channel & 16 != 0, channel & 8 != 0, channel & 4 != 0, channel & 2 != 0,
        channel & 1 != 0)
  }

  /** The same register in a byte: position k is bit 6 - k. */
  function Positions(l: bv8): Lfsr {
    Lfsr(l & 64 != 0, l & 32 != 0, l & 16 != 0, l & 8 != 0, l & 4 != 0, l & 2 != 0, l & 1 != 0)
  }

  /** The byte register steps as the standard's, and puts out its position 6. */
  lemma WhiteningIsStandard(lfsr: bv8, res: bv8, mask: bv8)
    requires lfsr & 0x80 == 0
    ensures var (l, r) := KeyStep(lfsr, res, mask);
      && l & 0x80 == 0 && Positions(l) == Clock(Positions(lfsr))
      && r == if Positions(lfsr).p6 then res | mask else res
  {
  }

  lemma WhiteningStart(channel: bv8)
    requires channel < 64
    ensures (channel | 0x40) & 0x80 == 0 && Positions(channel | 0x40) == Initial(channel)
  {
  }

  lemma CollectBit(res: bv8, m: nat, j: nat)
    requires m < 8 && j < 8
    ensures Bit(res | Mask(m), j) <==> j == m || Bit(res, j)
  {
  }

  function Clocks(r: Lfsr, n: nat): Lfsr
    decreases n
  {
    if n == 0 then r else Clocks(Clock(r), n - 1)
  }

  lemma {:induction false} ClocksAppend(r: Lfsr, m: nat, n: nat)
    ensures Clocks(Clocks(r, m), n) == Clocks(r, m + n)
    decreases m
  {
    if m > 0 { ClocksAppend(Clock(r), m - 1, n); }
  }

  /** The mask at bit m of a key byte, zero after the last. */
  function MaskAt(m: nat): bv8 { if m < 8 then Mask(m) else 0 }

  lemma NextMask(m: nat)
    requires m < 8
    ensures MaskAt(m) << 1 == MaskAt(m + 1)
  {
    MaskShift(m);
  }

  /** Steps from bit m of a key byte on: the register moves on ... */
  lemma {:induction false} StepsMoveOn(lfsr: bv8, res: bv8, m: nat, n: nat)
    requires lfsr & 0x80 == 0 && m + n == 8
    ensures var l := KeySteps(lfsr, res, MaskAt(m), n).0; l & 0x80 == 0 && Positions(l) == Clocks(Positions(lfsr), n)
    decreases n
  {
    if n > 0 {
      NextMask(m);
      WhiteningIsStandard(lfsr, res, MaskAt(m));
      var (l, r) := KeyStep(lfsr, res, MaskAt(m));
      StepsMoveOn(l, r, m + 1, n - 1);
    }
  }

  /** ... and its outputs are collected. */
  lemma {:induction false} StepsCollect(lfsr: bv8, res: bv8, m: nat, n: nat, j: nat)
    requires lfsr & 0x80 == 0 && m + n == 8 && j < 8 && (j >= m ==> !Bit(res, j))
    ensures Bit(KeySteps(lfsr, res, MaskAt(m), n).1, j) ==
            if j < m then Bit(res, j) else Clocks(Positions(lfsr), j - m).p6
    decreases n
  {
    if n > 0 {
      NextMask(m);
      WhiteningIsStandard(lfsr, res, MaskAt(m));
      CollectBit(res, m, j);
      var (l, r) := KeyStep(lfsr, res, MaskAt(m));
      StepsCollect(l, r, m + 1, n - 1, j);
    }
  }

  lemma {:induction false} LfsrIsStandard(lfsr: bv8, i: nat)
    requires lfsr & 0x80 == 0
    ensures LfsrAt(lfsr, i) & 0x80 == 0 && Positions(LfsrAt(lfsr, i)) == Clocks(Positions(lfsr), 8 * i)
    decreases i
  {
    if i > 0 {
      LfsrIsStandard(lfsr, i - 1);
      StepsMoveOn(LfsrAt(lfsr, i - 1), 0, 0, BITS);
      ClocksAppend(Positions(lfsr), 8 * (i - 1), BITS);
    }
  }

  lemma ZeroBit(j: nat)
    requires j < 8
    ensures !Bit(0, j)
  {
  }

  lemma KeystreamOf(lfsr: bv8, i: nat, j: nat)
    requires lfsr & 0x80 == 0 && j < 8
    ensures Bit(KeyAt(lfsr, i), j) == Clocks(Positions(lfsr), 8 * i + j).p6
  {
    LfsrIsStandard(lfsr, i);
    ZeroBit(j);
    StepsCollect(LfsrAt(lfsr, i), 0, 0, BITS, j);
    ClocksAppend(Positions(lfsr), 8 * i, j);
  }

  /** Bit j of byte i of the keystream is output 8i + j of the standard's register. */
  lemma KeystreamIsStandard(channel: bv8, i: nat, j: nat)
    requires channel < 64 && j < 8
    ensures Bit(KeyAt(channel | 0x40, i), j) == Clocks(Initial(channel), 8 * i + j).p6
  {
    WhiteningStart(channel);
    KeystreamOf(channel | 0x40, i, j);
  }

  // ---------- CRC ----------

  /** The bytes dst[0], dst[1], dst[2]: bits 23-16, 15-8 and 7-0, each byte in wire bit order. */
  datatype Register = Register(d0: bv8, d1: bv8, d2: bv8)

  /** Each byte shifted right, the lowest bit of the next one coming in at the top. */
  function NextHigh(d0: bv8, d1: bv8): bv8 { (d0 >> 1) | (if d1 & 0x01 != 0 then 0x80 else 0) }

  function NextMiddle(d1: bv8, d2: bv8, feedback: bool): bv8 {
    ((d1 >> 1) | (if d2 & 0x01 != 0 then 0x80 else 0)) ^ (if feedback then 0x60 else 0)
  }

  function NextLow(d2: bv8, feedback: bool): bv8 { (d2 >> 1) ^ (if feedback then 0xDA else 0) }

  function CrcBit(r: Register, bit: bool): Register {
    var feedback := (r.d0 & 0x01 != 0) != bit;
    Register(NextHigh(r.d0, r.d1), NextMiddle(r.d1, r.d2, feedback), NextLow(r.d2, feedback))
  }

  /** n bits of d, the least significant first. */
  function CrcBits(r: Register, d: bv8, n: nat): Register
    decreases n, d
  {
    if n == 0 then r else CrcBits(CrcBit(r, d & 1 != 0), d >> 1, n - 1)
  }

  function CrcByte(r: Register, d: bv8): Register { CrcBits(r, d, BITS) }

  const CRC_INIT: Register := Register(0xAA, 0xAA, 0xAA)

  /** The register after a byte string. */
  function Crc(bytes: seq<bv8>): Register
    decreases |bytes|
  {
    if bytes == [] then CRC_INIT else CrcByte(Crc(bytes[..|bytes| - 1]), bytes[|bytes| - 1])
  }

  function Bytes(r: Register): (s: seq<bv8>)
    ensures |s| == 3
  {
    [r.d0, r.d1, r.d2]
  }

  // ---------- the CRC register of section 3.1.1 ----------

  /** Position k of the shift register, 0 to 23. */
  predicate Position(r: Register, k: nat)
    requires k < 24
  {
    BitAt(r.d0, r.d1, r.d2, k)
  }

  function Positions24(r: Register): (p: seq<bool>)
    ensures |p| == 24
  {
    seq(24, k requires 0 <= k < 24 => Position(r, k))
  }

  /** Where the feedback polynomial x^24 + x^10 + x^9 + x^6 + x^4 + x^3 + x + 1 has its taps, besides position 0. */
  predicate Tap(k: nat) { k == 1 || k == 3 || k == 4 || k == 6 || k == 9 || k == 10 }

  /** Position k after a clock: the last position and the data bit feed back. */
  function Clocked(p: seq<bool>, bit: bool, k: nat): bool
    requires |p| == 24 && k < 24
  {
    var feedback := p[23] != bit;
    if k == 0 then feedback else if Tap(k) then p[k - 1] != feedback else p[k - 1]
  }

  function Clock24(p: seq<bool>, bit: bool): (q: seq<bool>)
    requires |p| == 24
    ensures |q| == 24
  {
    seq(24, k requires 0 <= k < 24 && |p| == 24 => Clocked(p, bit, k))
  }

  /** Positions 0, 2, 4, ... are set. */
  function Init24(): (p: seq<bool>)
    ensures |p| == 24
  {
    seq(24, k => k % 2 == 0)
  }

  function Clocks24(p: seq<bool>, d: bv8, n: nat): (q: seq<bool>)
    requires |p| == 24
    ensures |q| == 24
    decreases n, d
  {
    if n == 0 then p else Clocks24(Clock24(p, d & 1 != 0), d >> 1, n - 1)
  }

  function StandardCrc(bytes: seq<bv8>): (q: seq<bool>)
    ensures |q| == 24
    decreases |bytes|
  {
    if bytes == [] then Init24() else Clocks24(StandardCrc(bytes[..|bytes| - 1]), bytes[|bytes| - 1], BITS)
  }

  lemma ShiftedBit(d: bv8, carry: bool, j: nat)
    requires j < 8
    ensures Bit((d >> 1) | (if carry then 0x80 else 0), j) == if j == 7 then carry else Bit(d, j + 1)
  {
  }

  lemma ShiftedOut(d: bv8, j: nat)
    requires j < 8
    ensures Bit(d >> 1, j) == if j == 7 then false else Bit(d, j + 1)
  {
  }

  lemma MiddleTaps(d: bv8, j: nat)
    requires j < 8
    ensures Bit(d ^ 0x60, j) == if j == 5 || j == 6 then !Bit(d, j) else Bit(d, j)
  {
  }

  lemma LowTaps(d: bv8, j: nat)
    requires j < 8
    ensures Bit(d ^ 0xDA, j) == if j == 0 || j == 2 || j == 5 then Bit(d, j) else !Bit(d, j)
  {
  }

  lemma LowestBit(d: bv8)
    ensures d & 1 != 0 <==> Bit(d, 0)
  {
  }

  lemma HighSteps(d0: bv8, d1: bv8, j: nat)
    requires j < 8
    ensures Bit(NextHigh(d0, d1), j) == if j == 7 then Bit(d1, 0) else Bit(d0, j + 1)
  {
    LowestBit(d1);
    ShiftedBit(d0, d1 & 1 != 0, j);
  }

  lemma MiddleSteps(d1: bv8, d2: bv8, feedback: bool, j: nat)
    requires j < 8
    ensures var before := if j == 7 then Bit(d2, 0) else Bit(d1, j + 1);
      Bit(NextMiddle(d1, d2, feedback), j) == if j == 5 || j == 6 then before != feedback else before
  {
    LowestBit(d2);
    ShiftedBit(d1, d2 & 1 != 0, j);
    MiddleTaps((d1 >> 1) | (if d2 & 1 != 0 then 0x80 else 0), j);
  }

  lemma LowSteps(d2: bv8, feedback: bool, j: nat)
    requires j < 8
    ensures Bit(NextLow(d2, feedback), j) ==
            if j == 7 then feedback else if j == 0 || j == 2 || j == 5 then Bit(d2, j + 1)
              else Bit(d2, j + 1) != feedback
  {
    ShiftedOut(d2, j);
    LowTaps(d2 >> 1, j);
  }

  lemma FeedbackBit(r: Register, bit: bool)
    ensures CrcBit(r, bit) == var feedback := Position(r, 23) != bit;
      Register(NextHigh(r.d0, r.d1), NextMiddle(r.d1, r.d2, feedback), NextLow(r.d2, feedback))
  {
    LowestBit(r.d0);
  }

  /** Position k of a register made of these bytes. */
  predicate BitAt(d0: bv8, d1: bv8, d2: bv8, k: nat)
    requires k < 24
  {
    if k >= 16 then Bit(d0, 23 - k) else if k >= 8 then Bit(d1, 15 - k) else Bit(d2, 7 - k)
  }

  /** One position after a step, as the standard's circuit has it. */
  lemma BytesStep(d0: bv8, d1: bv8, d2: bv8, feedback: bool, k: nat)
    requires k < 24
    ensures BitAt(NextHigh(d0, d1), NextMiddle(d1, d2, feedback), NextLow(d2, feedback), k) ==
      if k == 0 then feedback
      else if Tap(k) then BitAt(d0, d1, d2, k - 1) != feedback
      else BitAt(d0, d1, d2, k - 1)
  {
    if k >= 16 {
      HighSteps(d0, d1, 23 - k);
    } else if k >= 8 {
      MiddleSteps(d1, d2, feedback, 15 - k);
    } else {
      LowSteps(d2, feedback, 7 - k);
    }
  }

  lemma PositionSteps(r: Register, bit: bool, k: nat)
    requires k < 24
    ensures var feedback := Position(r, 23) != bit;
      Position(CrcBit(r, bit), k) ==
      if k == 0 then feedback else if Tap(k) then Position(r, k - 1) != feedback else Position(r, k - 1)
  {
    FeedbackBit(r, bit);
    BytesStep(r.d0, r.d1, r.d2, Position(r, 23) != bit, k);
  }

  lemma BitIsStandard(r: Register, bit: bool)
    ensures Positions24(CrcBit(r, bit)) == Clock24(Positions24(r), bit)
  {
    forall k | 0 <= k < 24 ensures Positions24(CrcBit(r, bit))[k] == Clock24(Positions24(r), bit)[k] {
      PositionSteps(r, bit, k);
    }
  }

  lemma {:induction false} BitsAreStandard(r: Register, d: bv8, n: nat)
    ensures Positions24(CrcBits(r, d, n)) == Clocks24(Positions24(r), d, n)
    decreases n
  {
    if n > 0 {
      BitIsStandard(r, d & 1 != 0);
      BitsAreStandard(CrcBit(r, d & 1 != 0), d >> 1, n - 1);
    }
  }

  lemma StartBit(j: nat)
    requires j < 8
    ensures Bit(0xAA, j) == (j % 2 == 1)
  {
  }

  lemma InitIsStandard()
    ensures Positions24(CRC_INIT) == Init24()
  {
    forall k | 0 <= k < 24 ensures Positions24(CRC_INIT)[k] == Init24()[k] {
      StartBit(if k >= 16 then 23 - k else if k >= 8 then 15 - k else 7 - k);
    }
  }

  /** crc computes the standard's CRC of any byte string. */
  lemma {:induction false} CrcIsStandard(bytes: seq<bv8>)
    ensures Positions24(Crc(bytes)) == StandardCrc(bytes)
    decreases |bytes|
  {
    if bytes == [] {
      InitIsStandard();
    } else {
      CrcIsStandard(bytes[..|bytes| - 1]);
      BitsAreStandard(Crc(bytes[..|bytes| - 1]), bytes[|bytes| - 1], BITS);
    }
  }

  // ---------- error detection ----------

  /** Two registers differ, but not at position m or above. */
  ghost predicate DifferBelow(r: Register, s: Register, m: nat) {
    (exists k :: 0 <= k < 24 && Position(r, k) != Position(s, k)) &&
    forall k :: m <= k < 24 ==> Position(r, k) == Position(s, k)
  }

  /** A difference moves up one position at a time and cannot vanish before it has reached the top. */
  lemma DifferenceStays(r: Register, s: Register, b: bool, c: bool, m: nat)
    requires DifferBelow(r, s, m) && 10 <= m <= 23
    ensures DifferBelow(CrcBit(r, b), CrcBit(s, c), m + 1)
  {
    var k :| 0 <= k < 24 && Position(r, k) != Position(s, k);
    PositionSteps(r, b, 0);
    PositionSteps(s, c, 0);
    PositionSteps(r, b, k + 1);
    PositionSteps(s, c, k + 1);
    assert Position(CrcBit(r, b), 0) != Position(CrcBit(s, c), 0) ||
           Position(CrcBit(r, b), k + 1) != Position(CrcBit(s, c), k + 1);
    forall j | m + 1 <= j < 24 ensures Position(CrcBit(r, b), j) == Position(CrcBit(s, c), j) {
      PositionSteps(r, b, j);
      PositionSteps(s, c, j);
    }
  }

  /** Different data bits make a difference at the taps. */
  lemma DifferenceBegins(r: Register, b: bool)
    ensures DifferBelow(CrcBit(r, b), CrcBit(r, !b), 11)
  {
    PositionSteps(r, b, 0);
    PositionSteps(r, !b, 0);
    assert Position(CrcBit(r, b), 0) != Position(CrcBit(r, !b), 0);
    forall j | 11 <= j < 24 ensures Position(CrcBit(r, b), j) == Position(CrcBit(r, !b), j) {
      PositionSteps(r, b, j);
      PositionSteps(r, !b, j);
    }
  }

  lemma {:induction false} DifferenceSurvives(r: Register, s: Register, d: bv8, e: bv8, n: nat, m: nat)
    requires DifferBelow(r, s, m) && 10 <= m && m + n <= 24
    ensures CrcBits(r, d, n) != CrcBits(s, e, n)
    decreases n
  {
    if n > 0 {
      DifferenceStays(r, s, d & 1 != 0, e & 1 != 0, m);
      DifferenceSurvives(CrcBit(r, d & 1 != 0), CrcBit(s, e & 1 != 0), d >> 1, e >> 1, n - 1, m + 1);
    }
  }

  lemma HalvesDiffer(d: bv8, e: bv8)
    requires d != e
    ensures (d & 1 != 0) != (e & 1 != 0) || d >> 1 != e >> 1
  {
  }

  /** d has only its n lowest bits. */
  predicate Fits(d: bv8, n: nat) {
    if n == 0 then d == 0 else if n < 8 then d < Mask(n) else true
  }

  lemma FitsHalf(d: bv8, n: nat)
    requires 0 < n <= 8 && Fits(d, n)
    ensures Fits(d >> 1, n - 1)
  {
  }

  /** Different bytes lead the same register to different ones. */
  lemma {:induction false} BytesTellApart(r: Register, d: bv8, e: bv8, n: nat)
    requires n <= 8 && Fits(d, n) && Fits(e, n) && d != e
    ensures CrcBits(r, d, n) != CrcBits(r, e, n)
    decreases n
  {
    HalvesDiffer(d, e);
    FitsHalf(d, n);
    FitsHalf(e, n);
    var b := d & 1 != 0;
    if b != (e & 1 != 0) {
      DifferenceBegins(r, b);
      DifferenceSurvives(CrcBit(r, b), CrcBit(r, !b), d >> 1, e >> 1, n - 1, 11);
    } else {
      BytesTellApart(CrcBit(r, b), d >> 1, e >> 1, n - 1);
    }
  }

  lemma BitsOfBytes(r: Register, j: nat)
    requires j < 8
    ensures Bit(r.d0, j) == Position(r, 23 - j) && Bit(r.d1, j) == Position(r, 15 - j) &&
      Bit(r.d2, j) == Position(r, 7 - j)
  {
  }

  lemma SamePositions(r: Register, s: Register)
    requires Positions24(r) == Positions24(s)
    ensures r == s
  {
    forall j | 0 <= j < 8 ensures Bit(r.d0, j) == Bit(s.d0, j) && Bit(r.d1, j) == Bit(s.d1, j) &&
        Bit(r.d2, j) == Bit(s.d2, j) {
      BitsOfBytes(r, j);
      BitsOfBytes(s, j);
      assert Positions24(r)[23 - j] == Positions24(s)[23 - j];
      assert Positions24(r)[15 - j] == Positions24(s)[15 - j];
      assert Positions24(r)[7 - j] == Positions24(s)[7 - j];
    }
    SameBitsSameByte(r.d0, s.d0);
    SameBitsSameByte(r.d1, s.d1);
    SameBitsSameByte(r.d2, s.d2);
  }

  lemma ClockInjective(p: seq<bool>, q: seq<bool>, bit: bool)
    requires |p| == |q| == 24 && Clock24(p, bit) == Clock24(q, bit)
    ensures p == q
  {
    assert Clock24(p, bit)[0] == Clock24(q, bit)[0];
    forall k | 0 <= k < 23 ensures p[k] == q[k] {
      assert Clock24(p, bit)[k + 1] == Clock24(q, bit)[k + 1];
    }
  }

  /** The same data bit keeps different registers different. */
  lemma BitInjective(r: Register, s: Register, bit: bool)
    requires CrcBit(r, bit) == CrcBit(s, bit)
    ensures r == s
  {
    BitIsStandard(r, bit);
    BitIsStandard(s, bit);
    ClockInjective(Positions24(r), Positions24(s), bit);
    SamePositions(r, s);
  }

  lemma {:induction false} BitsInjective(r: Register, s: Register, d: bv8, n: nat)
    requires CrcBits(r, d, n) == CrcBits(s, d, n)
    ensures r == s
    decreases n
  {
    if n > 0 {
      BitsInjective(CrcBit(r, d & 1 != 0), CrcBit(s, d & 1 != 0), d >> 1, n - 1);
      BitInjective(r, s, d & 1 != 0);
    }
  }

  lemma CrcStep(a: seq<bv8>, b: seq<bv8>)
    requires |a| == |b| && a != [] && Crc(a[..|a| - 1]) != Crc(b[..|b| - 1]) && a[|a| - 1] == b[|b| - 1]
    ensures Crc(a) != Crc(b)
  {
    var n := |a| - 1;
    if Crc(a) == Crc(b) { BitsInjective(Crc(a[..n]), Crc(b[..n]), a[n], BITS); }
  }

  ghost predicate DifferOnlyAt(a: seq<bv8>, b: seq<bv8>, j: nat) {
    |a| == |b| && j < |a| && a[j] != b[j] && a[..j] == b[..j] && a[j + 1..] == b[j + 1..]
  }

  /** Any change confined to one byte changes the CRC. */
  lemma {:induction false} OneByteChange(a: seq<bv8>, b: seq<bv8>, j: nat)
    requires DifferOnlyAt(a, b, j)
    ensures Crc(a) != Crc(b)
    decreases |a|
  {
    var n := |a| - 1;
    if j == n {
      BytesTellApart(Crc(a[..n]), a[n], b[n], BITS);
    } else {
      assert a[..n][..j] == a[..j] && b[..n][..j] == b[..j];
      assert a[..n][j + 1..] == a[j + 1..][..n - j - 1] && b[..n][j + 1..] == b[j + 1..][..n - j - 1];
      assert a[n] == a[j + 1..][n - j - 1] && b[n] == b[j + 1..][n - j - 1];
      OneByteChange(a[..n], b[..n], j);
      CrcStep(a, b);
    }
  }
}
