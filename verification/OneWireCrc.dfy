/**
 The two Maxim CRCs of libraries/OneWire (Application Note 27): the 8-bit one over ROM
 codes, by table and bit by bit, and the 16-bit one by its parity trick.
 */
module OneWireCrc {

  // ---------- CRC-8 ----------

  /** One step of the reflected shift register for x^8 + x^5 + x^4 + 1. */
  function Shift8(x: bv8): bv8 { if x & 1 != 0 then (x >> 1) ^ 0x8C else x >> 1 }

  /** One byte through the register: mix it in, then shift eight times. */
  function Byte8(crc: bv8, b: bv8): bv8 {
    Shift8(Shift8(Shift8(Shift8(Shift8(Shift8(Shift8(Shift8(crc ^ b))))))))
  }

  /** The register after a byte string, from a given start. */
  function Run8(crc: bv8, bytes: seq<bv8>): bv8 {
    if bytes == [] then crc else Byte8(Run8(crc, bytes[..|bytes| - 1]), bytes[|bytes| - 1])
  }

  function Entry(k: bv8, e0: bv8, e1: bv8, e2: bv8, e3: bv8, e4: bv8, e5: bv8, e6: bv8, e7: bv8,
                 e8: bv8, e9: bv8, e10: bv8, e11: bv8, e12: bv8, e13: bv8, e14: bv8, e15: bv8): bv8
  {    if k == 0 then e0 else if k == 1 then e1 else if k == 2 then e2 else if k == 3 then e3
    else if k == 4 then e4 else if k == 5 then e5 else if k == 6 then e6 else if k == 7 then e7
    else if k == 8 then e8 else if k == 9 then e9 else if k == 10 then e10 else if k == 11 then e11
    else if k == 12 then e12 else if k == 13 then e13 else if k == 14 then e14 else e15
  }

  /** dscrc_table, a row of sixteen entries for each high nibble of the index. */
  function DscrcTable(i: bv8): bv8 {
    var k := i & 15;
    if i >> 4 == 0 then Entry(k, 0, 94, 188, 226, 97, 63, 221, 131, 194, 156, 126, 32, 163, 253, 31, 65)
    else if i >> 4 == 1 then Entry(k, 157, 195, 33, 127, 252, 162, 64, 30, 95, 1, 227, 189, 62, 96, 130, 220)
    else if i >> 4 == 2 then Entry(k, 35, 125, 159, 193, 66, 28, 254, 160, 225, 191, 93, 3, 128, 222, 60, 98)
    else if i >> 4 == 3 then Entry(k, 190, 224, 2, 92, 223, 129, 99, 61, 124, 34, 192, 158, 29, 67, 161, 255)
    else if i >> 4 == 4 then Entry(k, 70, 24, 250, 164, 39, 121, 155, 197, 132, 218, 56, 102, 229, 187, 89, 7)
    else if i >> 4 == 5 then Entry(k, 219, 133, 103, 57, 186, 228, 6, 88, 25, 71, 165, 251, 120, 38, 196, 154)
    else if i >> 4 == 6 then Entry(k, 101, 59, 217, 135, 4, 90, 184, 230, 167, 249, 27, 69, 198, 152, 122, 36)
    else if i >> 4 == 7 then Entry(k, 248, 166, 68, 26, 153, 199, 37, 123, 58, 100, 134, 216, 91, 5, 231, 185)
    else if i >> 4 == 8 then Entry(k, 140, 210, 48, 110, 237, 179, 81, 15, 78, 16, 242, 172, 47, 113, 147, 205)
    else if i >> 4 == 9 then Entry(k, 17, 79, 173, 243, 112, 46, 204, 146, 211, 141, 111, 49, 178, 236, 14, 80)
    else if i >> 4 == 10 then Entry(k, 175, 241, 19, 77, 206, 144, 114, 44, 109, 51, 209, 143, 12, 82, 176, 238)
    else if i >> 4 == 11 then Entry(k, 50, 108, 142, 208, 83, 13, 239, 177, 240, 174, 76, 18, 145, 207, 45, 115)
    else if i >> 4 == 12 then Entry(k, 202, 148, 118, 40, 171, 245, 23, 73, 8, 86, 180, 234, 105, 55, 213, 139)
    else if i >> 4 == 13 then Entry(k, 87, 9, 235, 181, 54, 104, 138, 212, 149, 203, 41, 119, 244, 170, 72, 22)
    else if i >> 4 == 14 then Entry(k, 233, 183, 85, 11, 136, 214, 52, 106, 43, 117, 151, 201, 74, 20, 246, 168)
    else Entry(k, 116, 42, 200, 150, 21, 75, 169, 247, 182, 232, 10, 84, 215, 137, 107, 53)
  }

  /** What each bit of the byte contributes: the table entries of the powers of two. */
  function Columns(i: bv8): bv8 {
    (if i & 1 != 0 then 94 else 0) ^ (if i & 2 != 0 then 188 else 0) ^ (if i & 4 != 0 then 97 else 0) ^
    (if i & 8 != 0 then 194 else 0) ^ (if i & 16 != 0 then 157 else 0) ^ (if i & 32 != 0 then 35 else 0) ^
    (if i & 64 != 0 then 70 else 0) ^ (if i & 128 != 0 then 140 else 0)
  }

  /** Four steps of the register at once. */
  function FourColumns(x: bv8): bv8 {
    (x >> 4) ^ (if x & 1 != 0 then 157 else 0) ^ (if x & 2 != 0 then 35 else 0) ^
    (if x & 4 != 0 then 70 else 0) ^ (if x & 8 != 0 then 140 else 0)
  }

  lemma FourShifts(x: bv8)
    ensures Shift8(Shift8(Shift8(Shift8(x)))) == FourColumns(x)
  {
    if x & 1 != 0 {
      if x & 2 != 0 {} else {}
    } else {
      if x & 2 != 0 {} else {}
    }
  }

  lemma ColumnsTwice(x: bv8)
    ensures FourColumns(FourColumns(x)) == Columns(x)
  {
    if x & 1 != 0 {
      if x & 2 != 0 {} else {}
    } else {
      if x & 2 != 0 {} else {}
    }
  }

  lemma ByteIsColumns(crc: bv8, b: bv8)
    ensures Byte8(crc, b) == Columns(crc ^ b)
  {
    hide Shift8, FourColumns, Columns;
    var x := crc ^ b;
    FourShifts(x);
    FourShifts(Shift8(Shift8(Shift8(Shift8(x)))));
    ColumnsTwice(x);
  }

  lemma TableRow0(i: bv8)
    requires i & 0xF0 == 0
    ensures DscrcTable(i) == Columns(i)
  {
  }

  lemma TableRow1(i: bv8)
    requires i & 0xF0 == 0x10
    ensures DscrcTable(i) == Columns(i)
  {
  }

  lemma TableRow2(i: bv8)
    requires i & 0xF0 == 0x20
    ensures DscrcTable(i) == Columns(i)
  {
  }

  lemma TableRow3(i: bv8)
    requires i & 0xF0 == 0x30
    ensures DscrcTable(i) == Columns(i)
  {
  }

  lemma TableRows4To7(i: bv8)
    requires i & 0xC0 == 0x40
    ensures DscrcTable(i) == Columns(i)
  {
  }

  lemma TableRows8To11(i: bv8)
    requires i & 0xC0 == 0x80
    ensures DscrcTable(i) == Columns(i)
  {
  }

  lemma TableRows12To15(i: bv8)
    requires i & 0xC0 == 0xC0
    ensures DscrcTable(i) == Columns(i)
  {
  }

  /** All 256 entries are right: the table steps the register by a whole byte. */
  lemma TableIsByte(crc: bv8, b: bv8)
    ensures DscrcTable(crc ^ b) == Byte8(crc, b)
  {
    var i := crc ^ b;
    ByteIsColumns(crc, b);
    if i & 0xF0 == 0 { TableRow0(i); }
    else if i & 0xF0 == 0x10 { TableRow1(i); }
    else if i & 0xF0 == 0x20 { TableRow2(i); }
    else if i & 0xF0 == 0x30 { TableRow3(i); }
    else if i & 0xC0 == 0x40 { TableRows4To7(i); }
    else if i & 0xC0 == 0x80 { TableRows8To11(i); }
    else { TableRows12To15(i); }
  }

  /** The table version of crc8. */
  method Crc8Table(addr: seq<bv8>, len: nat) returns (crc: bv8)
    requires len <= |addr|
    ensures crc == Run8(0, addr[..len])
  {
    crc := 0;
    var n, i := len, 0;
    while n > 0
      invariant i + n == len
      invariant crc == Run8(0, addr[..i])
    {
      TableIsByte(crc, addr[i]);
      assert addr[..i + 1][..i] == addr[..i];
      crc := DscrcTable(crc ^ addr[i]);
      n, i := n - 1, i + 1;
    }
  }

  /** One pass of the bit loop: bit 0 of the register and of the byte decide together. */
  function BitStep(crc: bv8, inbyte: bv8): bv8 {
    if (crc ^ inbyte) & 1 != 0 then (crc >> 1) ^ 0x8C else crc >> 1
  }

  /** The bit loop with n passes to go. */
  function BitLoop(crc: bv8, inbyte: bv8, n: nat): bv8
    decreases n
  {
    if n == 0 then crc else BitLoop(BitStep(crc, inbyte), inbyte >> 1, n - 1)
  }

  /** Mixing bit by bit is mixing at once: the unread bits only wait in the byte. */
  lemma MixBit(crc: bv8, inbyte: bv8)
    ensures BitStep(crc, inbyte) ^ (inbyte >> 1) == Shift8(crc ^ inbyte)
  {
  }

  lemma {:induction false} BitLoopIsShifts(crc: bv8, b: bv8, x: bv8, n: nat)
    requires x == crc ^ b
    ensures BitLoop(crc, b, n) ^ Drop(b, n) == Shifts(x, n)
    decreases n
  {
    if n > 0 {
      MixBit(crc, b);
      BitLoopIsShifts(BitStep(crc, b), b >> 1, Shift8(x), n - 1);
    }
  }

  function Drop(b: bv8, n: nat): bv8
    decreases n
  {
    if n == 0 then b else Drop(b >> 1, n - 1)
  }

  function Shifts(x: bv8, n: nat): bv8
    decreases n
  {
    if n == 0 then x else Shifts(Shift8(x), n - 1)
  }

  lemma DropEight(b: bv8)
    ensures Drop(b, 8) == 0
  {
  }

  lemma ShiftsEight(x: bv8)
    ensures Shifts(x, 8) == Shift8(Shift8(Shift8(Shift8(Shift8(Shift8(Shift8(Shift8(x))))))))
  {
  }

  lemma BitLoopIsByte(crc: bv8, b: bv8)
    ensures BitLoop(crc, b, 8) == Byte8(crc, b)
  {
    BitLoopIsShifts(crc, b, crc ^ b, 8);
    DropEight(b);
    ShiftsEight(crc ^ b);
  }

  /** The inner loop of the version without a table. */
  method BitwiseByte(crc0: bv8, b: bv8) returns (crc: bv8)
    ensures crc == Byte8(crc0, b)
  {
    crc := crc0;
    var inbyte, i := b, 8;
    BitLoopIsByte(crc0, b);
    while i > 0
      invariant 0 <= i <= 8 && BitLoop(crc, inbyte, i) == Byte8(crc0, b)
    {
      var mix := (crc ^ inbyte) & 1;
      crc := crc >> 1;
      if mix != 0 { crc := crc ^ 0x8C; }
      inbyte := inbyte >> 1;
      i := i - 1;
    }
  }

  /** The version of crc8 without a table. */
  method Crc8Bitwise(addr: seq<bv8>, len: nat) returns (crc: bv8)
    requires len <= |addr|
    ensures crc == Run8(0, addr[..len])
  {
    crc := 0;
    var n, j := len, 0;
    while n > 0
      invariant j + n == len
      invariant crc == Run8(0, addr[..j])
    {
      assert addr[..j + 1][..j] == addr[..j];
      crc := BitwiseByte(crc, addr[j]);
      n, j := n - 1, j + 1;
    }
  }

  // ---------- what CRC-8 detects ----------

  /** The register step is one-to-one in what is mixed in. */
  lemma ShiftInjective(x: bv8, y: bv8)
    requires Shift8(x) == Shift8(y)
    ensures x == y
  {
  }

  lemma ByteInjective(c: bv8, d: bv8, a: bv8, b: bv8)
    requires Byte8(c, a) == Byte8(d, b)
    ensures c ^ a == d ^ b
  {
    var x, y := c ^ a, d ^ b;
    ShiftInjective(Shift8(Shift8(Shift8(Shift8(Shift8(Shift8(Shift8(x))))))),
        Shift8(Shift8(Shift8(Shift8(Shift8(Shift8(Shift8(y))))))));
    ShiftInjective(Shift8(Shift8(Shift8(Shift8(Shift8(Shift8(x)))))),
        Shift8(Shift8(Shift8(Shift8(Shift8(Shift8(y)))))));
    ShiftInjective(Shift8(Shift8(Shift8(Shift8(Shift8(x))))), Shift8(Shift8(Shift8(Shift8(Shift8(y))))));
    ShiftInjective(Shift8(Shift8(Shift8(Shift8(x)))), Shift8(Shift8(Shift8(Shift8(y)))));
    ShiftInjective(Shift8(Shift8(Shift8(x))), Shift8(Shift8(Shift8(y))));
    ShiftInjective(Shift8(Shift8(x)), Shift8(Shift8(y)));
    ShiftInjective(Shift8(x), Shift8(y));
    ShiftInjective(x, y);
  }

  lemma ByteTells(c: bv8, a: bv8, b: bv8)
    requires a != b
    ensures Byte8(c, a) != Byte8(c, b)
  {
    assert c ^ a != c ^ b;
    if Byte8(c, a) == Byte8(c, b) { ByteInjective(c, c, a, b); }
  }

  lemma ByteCarries(c: bv8, d: bv8, a: bv8)
    requires c != d
    ensures Byte8(c, a) != Byte8(d, a)
  {
    assert c ^ a != d ^ a;
    if Byte8(c, a) == Byte8(d, a) { ByteInjective(c, d, a, a); }
  }

  /** A message is followed by its CRC exactly when the register ends at zero. */
  lemma Residue(message: seq<bv8>, c: bv8)
    ensures Run8(0, message + [c]) == 0 <==> c == Run8(0, message)
  {
    var r := Run8(0, message);
    assert (message + [c])[..|message|] == message;
    assert Byte8(r, r) == 0;
    if c != r { ByteTells(r, c, r); }
  }

  /** Any change confined to one byte changes the CRC. */
  lemma {:induction false} OneByteChange(c: bv8, a: seq<bv8>, j: nat, b: bv8)
    requires j < |a| && b != a[j]
    ensures Run8(c, a) != Run8(c, a[j := b])
  {
    hide Byte8;
    var n, other := |a| - 1, a[j := b];
    if j == n {
      assert other[..n] == a[..n];
      ByteTells(Run8(c, a[..n]), a[n], b);
    } else {
      assert other[..n] == a[..n][j := b];
      OneByteChange(c, a[..n], j, b);
      ByteCarries(Run8(c, a[..n]), Run8(c, other[..n]), a[n]);
    }
  }

  /** A ROM code is valid when its last byte is the CRC of the first seven. */
  predicate ValidRom(rom: seq<bv8>) {
    |rom| == 8 && Run8(0, rom[..7]) == rom[7]
  }

  method ValidAddress(deviceAddress: seq<bv8>) returns (valid: bool)
    requires |deviceAddress| == 8
    ensures valid == ValidRom(deviceAddress)
    ensures valid == (Run8(0, deviceAddress) == 0)
  {
    var crc := Crc8Table(deviceAddress, 7);
    Residue(deviceAddress[..7], deviceAddress[7]);
    assert deviceAddress == deviceAddress[..7] + [deviceAddress[7]];
    return crc == deviceAddress[7];
  }

  /** No change confined to one byte turns a valid ROM code into another valid one. */
  lemma ValidRomsFarApart(rom: seq<bv8>, j: nat, b: bv8)
    requires ValidRom(rom) && j < 8
    ensures ValidRom(rom[j := b]) <==> b == rom[j]
  {
    var other := rom[j := b];
    if b == rom[j] {
      assert other == rom;
    } else {
      Residue(rom[..7], rom[7]);
      Residue(other[..7], other[7]);
      assert rom == rom[..7] + [rom[7]] && other == other[..7] + [other[7]];
      OneByteChange(0, rom, j, b);
    }
  }

  // ---------- CRC-16 ----------

  /** One step of the reflected shift register for x^16 + x^15 + x^2 + 1. */
  function Shift16(x: bv16): bv16 { if x & 1 != 0 then (x >> 1) ^ 0xA001 else x >> 1 }

  function Byte16(crc: bv16, b: bv8): bv16 {
    Shift16(Shift16(Shift16(Shift16(Shift16(Shift16(Shift16(Shift16(crc ^ (b as bv16)))))))))
  }

  function Run16(crc: bv16, bytes: seq<bv8>): bv16 {
    if bytes == [] then crc else Byte16(Run16(crc, bytes[..|bytes| - 1]), bytes[|bytes| - 1])
  }

  /** oddparity: whether a nibble has an odd number of ones, as tabulated. */
  function OddParity(k: bv16): bv16 {
    if k == 0 then 0 else if k == 1 then 1 else if k == 2 then 1 else if k == 3 then 0
    else if k == 4 then 1 else if k == 5 then 0 else if k == 6 then 0 else if k == 7 then 1
    else if k == 8 then 1 else if k == 9 then 0 else if k == 10 then 0 else if k == 11 then 1
    else if k == 12 then 0 else if k == 13 then 1 else if k == 14 then 1 else 0
  }

  function Xor(a: bv16, b: bv16): bv16 { a ^ b }

  /** The mixed byte goes in twice, shifted by six and by seven. */
  function Mix(c: bv16, cdata: bv16): bv16 { Xor(Xor(c, cdata << 6), (cdata << 6) << 1) }

  predicate OddOnes(cdata: bv16) { OddParity(cdata & 0x0F) ^ OddParity(cdata >> 4) != 0 }

  /** The parity trick on the mixed byte, with h what the shift by 8 leaves. */
  function ParityCombine(h: bv16, cdata: bv16): bv16 {
    if OddOnes(cdata) then Mix(Xor(h, 0xC001), cdata) else Mix(h, cdata)
  }

  /** One pass of the crc16 loop: a whole byte at once. */
  function ParityByte(crc: bv16, b: bv8): bv16 {
    ParityCombine(crc >> 8, ((b as bv16) ^ crc) & 0xFF)
  }

  lemma TwoShifts16(x: bv16)
    ensures Shift16(Shift16(x)) == (x >> 2) ^ (if x & 1 != 0 then 0xF001 else 0) ^ (if x & 2 != 0 then 0xA001 else 0)
  {
    if x & 1 != 0 {
      assert Shift16(x) & 1 == if x & 2 != 0 then 0 else 1;
    } else {
      assert Shift16(x) & 1 == if x & 2 != 0 then 1 else 0;
    }
  }

  lemma FourShifts16(x: bv16)
    ensures Shift16(Shift16(Shift16(Shift16(x)))) ==
            (x >> 4) ^ (if x & 1 != 0 then 0xCC01 else 0) ^ (if x & 2 != 0 then 0xD801 else 0) ^
            (if x & 4 != 0 then 0xF001 else 0) ^ (if x & 8 != 0 then 0xA001 else 0)
  {
    hide Shift16;
    var y := Shift16(Shift16(x));
    TwoShifts16(x);
    TwoShifts16(y);
    if (x & 1 != 0) == (x & 2 != 0) {
      assert y & 1 == if x & 4 != 0 then 1 else 0;
    } else {
      assert y & 1 == if x & 4 != 0 then 0 else 1;
    }
  }

  /** What a nibble n shifted out leaves: n times (x^2 + x), and 0xC001 for odd parity. */
  function NibbleTerm(n: bv16): bv16 {
    (n << 10) ^ (n << 11) ^ (if OddParity(n) != 0 then 0xC001 else 0)
  }

  lemma NibbleIsColumns(n: bv16)
    requires n < 16
    ensures NibbleTerm(n) == (if n & 1 != 0 then 0xCC01 else 0) ^ (if n & 2 != 0 then 0xD801 else 0) ^
                             (if n & 4 != 0 then 0xF001 else 0) ^ (if n & 8 != 0 then 0xA001 else 0)
  {
  }

  /** Four steps of the register at once. */
  function ShiftNibble(x: bv16): bv16 { Xor(x >> 4, NibbleTerm(x & 0x0F)) }

  lemma NibbleShifts16(x: bv16)
    ensures Shift16(Shift16(Shift16(Shift16(x)))) == ShiftNibble(x)
  {
    hide Shift16, OddParity;
    FourShifts16(x);
    assert x & 0x0F < 16;
    NibbleIsColumns(x & 0x0F);
  }

  lemma OddParityFlips(n: bv16)
    requires n < 16
    ensures OddParity(n) <= 1 && OddParity(n ^ 1) == OddParity(n) ^ 1
  {
  }

  /** Two nibbles in turn: the parity term of the first flips the lowest bit of the second. */
  lemma NibblesCombine(d: bv16)
    requires d <= 0xFF
    ensures ShiftNibble(ShiftNibble(d)) == ParityCombine(0, d)
  {
    hide OddParity;
    var n, m, y := d & 0x0F, d >> 4, ShiftNibble(d);
    assert n < 16 && m < 16;
    OddParityFlips(m);
    OddParityFlips(n);
    if OddParity(n) == 0 {
      assert y & 0x0F == m;
    } else {
      assert y & 0x0F == m ^ 1;
    }
  }

  lemma BitsAbove(a: bv16, b: bv16)
    requires b & 0x0F == 0
    ensures Xor(a, b) & 0x0F == a & 0x0F && Xor(a, b) >> 4 == Xor(a >> 4, b >> 4)
  {
  }

  lemma XorSwaps(a: bv16, b: bv16, c: bv16)
    ensures Xor(Xor(a, b), c) == Xor(Xor(a, c), b)
  {
  }

  lemma BitsAbovePass(a: bv16, b: bv16)
    requires b & 0x0F == 0
    ensures ShiftNibble(Xor(a, b)) == Xor(ShiftNibble(a), b >> 4)
  {
    hide NibbleTerm, Xor;
    BitsAbove(a, b);
    XorSwaps(a >> 4, b >> 4, NibbleTerm(a & 0x0F));
  }

  lemma TwoBytes(x: bv16)
    ensures x == Xor(x & 0xFF, x & 0xFF00) && x & 0xFF <= 0xFF
    ensures (x & 0xFF00) & 0x0F == 0 && ((x & 0xFF00) >> 4) & 0x0F == 0 && ((x & 0xFF00) >> 4) >> 4 == x >> 8
  {
  }

  lemma HighBytePasses(x: bv16)
    ensures ShiftNibble(ShiftNibble(x)) == Xor(ShiftNibble(ShiftNibble(x & 0xFF)), x >> 8) && x & 0xFF <= 0xFF
  {
    hide ShiftNibble, Xor;
    TwoBytes(x);
    BitsAbovePass(x & 0xFF, x & 0xFF00);
    BitsAbovePass(ShiftNibble(x & 0xFF), (x & 0xFF00) >> 4);
  }

  lemma CombineSplits(h: bv16, d: bv16)
    ensures ParityCombine(h, d) == Xor(ParityCombine(0, d), h)
  {
    hide OddOnes, Mix, Xor;
    MixSplits(h, 0xC001, d);
    MixSplits(h, 0, d);
    XorZero(h);
    XorZero(0xC001);
  }

  lemma MixSplits(h: bv16, c: bv16, d: bv16)
    ensures Mix(Xor(h, c), d) == Xor(Mix(c, d), h)
  {
    hide Xor;
    XorCommutes(h, c);
    XorSwaps(c, h, d << 6);
    XorSwaps(Xor(c, d << 6), h, (d << 6) << 1);
  }

  lemma XorCommutes(a: bv16, b: bv16)
    ensures Xor(a, b) == Xor(b, a)
  {
  }

  lemma XorZero(h: bv16)
    ensures Xor(h, 0) == h && Xor(0, h) == h
  {
  }

  lemma MixedByte(crc: bv16, b: bv8)
    ensures (crc ^ (b as bv16)) & 0xFF == ((b as bv16) ^ crc) & 0xFF <= 0xFF
    ensures (crc ^ (b as bv16)) >> 8 == crc >> 8
  {
  }

  lemma CombineIsEightShifts(x: bv16)
    ensures Shift16(Shift16(Shift16(Shift16(Shift16(Shift16(Shift16(Shift16(x)))))))) == ParityCombine(x >> 8, x & 0xFF)
  {
    hide Shift16, ParityCombine, ShiftNibble, Xor;
    NibbleShifts16(x);
    NibbleShifts16(Shift16(Shift16(Shift16(Shift16(x)))));
    HighBytePasses(x);
    NibblesCombine(x & 0xFF);
    CombineSplits(x >> 8, x & 0xFF);
  }

  /** The parity trick computes the bit-serial CRC. */
  lemma ParityTrick(crc: bv16, b: bv8)
    ensures ParityByte(crc, b) == Byte16(crc, b)
  {
    hide Shift16, ParityCombine;
    MixedByte(crc, b);
    CombineIsEightShifts(crc ^ (b as bv16));
  }

  method Crc16(input: seq<bv8>, len: nat, crc0: bv16) returns (crc: bv16)
    requires len <= |input|
    ensures crc == Run16(crc0, input[..len])
  {
    crc := crc0;
    for i := 0 to len
      invariant crc == Run16(crc0, input[..i])
    {
      ParityTrick(crc, input[i]);
      assert input[..i + 1][..i] == input[..i];
      crc := ParityByte(crc, input[i]);
    }
  }

  /** The two bytes that follow a message on the wire: the complement, low byte first. */
  predicate InvertedCrc(crc: bv16, inverted: seq<bv8>) {
    |inverted| == 2 && inverted[0] as bv16 == !crc & 0xFF && inverted[1] as bv16 == !crc >> 8
  }

  method CheckCrc16(input: seq<bv8>, len: nat, invertedCrc: seq<bv8>, crc0: bv16) returns (ok: bool)
    requires len <= |input| && |invertedCrc| == 2
    ensures ok == InvertedCrc(Run16(crc0, input[..len]), invertedCrc)
  {
    var crc := Crc16(input, len, crc0);
    crc := !crc;
    return crc & 0xFF == invertedCrc[0] as bv16 && crc >> 8 == invertedCrc[1] as bv16;
  }

  lemma ShiftInjective16(x: bv16, y: bv16)
    requires Shift16(x) == Shift16(y)
    ensures x == y
  {
  }

  lemma EightShiftsInjective16(x: bv16, y: bv16)
    requires Shift16(Shift16(Shift16(Shift16(Shift16(Shift16(Shift16(Shift16(x)))))))) ==
             Shift16(Shift16(Shift16(Shift16(Shift16(Shift16(Shift16(Shift16(y))))))))
    ensures x == y
  {
    ShiftInjective16(Shift16(Shift16(Shift16(Shift16(Shift16(Shift16(Shift16(x))))))),
        Shift16(Shift16(Shift16(Shift16(Shift16(Shift16(Shift16(y))))))));
    ShiftInjective16(Shift16(Shift16(Shift16(Shift16(Shift16(Shift16(x)))))),
        Shift16(Shift16(Shift16(Shift16(Shift16(Shift16(y)))))));
    ShiftInjective16(Shift16(Shift16(Shift16(Shift16(Shift16(x))))), Shift16(Shift16(Shift16(Shift16(Shift16(y))))));
    ShiftInjective16(Shift16(Shift16(Shift16(Shift16(x)))), Shift16(Shift16(Shift16(Shift16(y)))));
    ShiftInjective16(Shift16(Shift16(Shift16(x))), Shift16(Shift16(Shift16(y))));
    ShiftInjective16(Shift16(Shift16(x)), Shift16(Shift16(y)));
    ShiftInjective16(Shift16(x), Shift16(y));
    ShiftInjective16(x, y);
  }

  lemma ByteTells16(c: bv16, a: bv8, b: bv8)
    requires a != b
    ensures Byte16(c, a) != Byte16(c, b)
  {
    assert c ^ (a as bv16) != c ^ (b as bv16);
    if Byte16(c, a) == Byte16(c, b) { EightShiftsInjective16(c ^ (a as bv16), c ^ (b as bv16)); }
  }

  lemma ByteCarries16(c: bv16, d: bv16, a: bv8)
    requires c != d
    ensures Byte16(c, a) != Byte16(d, a)
  {
    assert c ^ (a as bv16) != d ^ (a as bv16);
    if Byte16(c, a) == Byte16(d, a) { EightShiftsInjective16(c ^ (a as bv16), d ^ (a as bv16)); }
  }

  /** Any change confined to one byte changes the CRC. */
  lemma {:induction false} OneByteChange16(c: bv16, a: seq<bv8>, j: nat, b: bv8)
    requires j < |a| && b != a[j]
    ensures Run16(c, a) != Run16(c, a[j := b])
  {
    hide Byte16;
    var n, other := |a| - 1, a[j := b];
    if j == n {
      assert other[..n] == a[..n];
      ByteTells16(Run16(c, a[..n]), a[n], b);
    } else {
      assert other[..n] == a[..n][j := b];
      OneByteChange16(c, a[..n], j, b);
      ByteCarries16(Run16(c, a[..n]), Run16(c, other[..n]), a[n]);
    }
  }

  /** A message with one byte changed fails the check that the original passes. */
  lemma CheckDetects(c: bv16, a: seq<bv8>, j: nat, b: bv8, inverted: seq<bv8>)
    requires j < |a| && b != a[j] && InvertedCrc(Run16(c, a), inverted)
    ensures !InvertedCrc(Run16(c, a[j := b]), inverted)
  {
    OneByteChange16(c, a, j, b);
    SameInverted(Run16(c, a), Run16(c, a[j := b]));
  }

  lemma SameInverted(c: bv16, d: bv16)
    requires c != d
    ensures !c & 0xFF != !d & 0xFF || !c >> 8 != !d >> 8
  {
  }

  // ---------- the residue ----------

  /** Eight steps of the register. */
  function EightShifts(x: bv16): bv16 { Shift16(Shift16(Shift16(Shift16(Shift16(Shift16(Shift16(Shift16(x)))))))) }

  /** What the register comes to when a message is followed by its inverted CRC. */
  const RESIDUE: bv16 := 0xB001

  lemma EightShiftsSplit(x: bv16)
    ensures EightShifts(x) == Xor(EightShifts(x & 0xFF), x >> 8)
  {
    hide Shift16, ShiftNibble, Xor;
    NibbleShifts16(x);
    NibbleShifts16(Shift16(Shift16(Shift16(Shift16(x)))));
    NibbleShifts16(x & 0xFF);
    NibbleShifts16(Shift16(Shift16(Shift16(Shift16(x & 0xFF)))));
    HighBytePasses(x);
  }

  lemma EightOfOnes()
    ensures EightShifts(0xFF) == 0x4040 && EightShifts(0x4040 ^ 0xFF) == RESIDUE
  {
  }

  lemma LowFilled(r: bv16, lo: bv8)
    requires lo as bv16 == !r & 0xFF
    ensures (r ^ (lo as bv16)) & 0xFF == 0xFF && (r ^ (lo as bv16)) >> 8 == r >> 8
  {
  }

  lemma HighFilled(r: bv16, hi: bv8)
    requires hi as bv16 == !r >> 8
    ensures Xor(0x4040, r >> 8) ^ (hi as bv16) == 0x4040 ^ 0xFF
  {
  }

  /** The two bytes in order bring the register to the residue. */
  lemma ResidueReached(r: bv16, lo: bv8, hi: bv8)
    requires InvertedCrc(r, [lo, hi])
    ensures Byte16(Byte16(r, lo), hi) == RESIDUE
  {
    hide Shift16, Xor;
    assert [lo, hi][0] == lo && [lo, hi][1] == hi;
    LowFilled(r, lo);
    EightShiftsSplit(r ^ (lo as bv16));
    EightOfOnes();
    HighFilled(r, hi);
  }

  lemma ByteIsCombined(d: bv16)
    requires d <= 0xFF
    ensures EightShifts(d) == ParityCombine(0, d)
  {
    hide Shift16, ParityCombine;
    CombineIsEightShifts(d);
    assert d >> 8 == 0 && d & 0xFF == d;
  }

  lemma HighByteTells(d: bv16)
    requires d <= 0xFF && ParityCombine(0, d) >> 8 == 0x40
    ensures d == 0xFF
  {
  }

  lemma HighByteOf(e: bv16, h: bv16, b: bv8)
    requires h <= 0xFF
    ensures (Xor(e, h) ^ (b as bv16)) >> 8 == e >> 8
  {
  }

  lemma LowTells(r: bv16, a: bv8)
    ensures (r ^ (a as bv16)) >> 8 == r >> 8 <= 0xFF && (r ^ (a as bv16)) & 0xFF <= 0xFF
    ensures (r ^ (a as bv16)) & 0xFF == 0xFF ==> a as bv16 == !r & 0xFF
  {
  }

  lemma HighTells(r: bv16, b: bv8)
    requires Xor(0x4040, r >> 8) ^ (b as bv16) == 0x4040 ^ 0xFF
    ensures b as bv16 == !r >> 8
  {
  }

  lemma LowByteRight(r: bv16, a: bv8, b: bv8)
    requires Byte16(r, a) ^ (b as bv16) == 0x4040 ^ 0xFF
    ensures (r ^ (a as bv16)) & 0xFF == 0xFF
  {
    hide Shift16, Xor, ParityCombine;
    var x := r ^ (a as bv16);
    LowTells(r, a);
    EightShiftsSplit(x);
    HighByteOf(EightShifts(x & 0xFF), x >> 8, b);
    ByteIsCombined(x & 0xFF);
    assert (0x4040 as bv16 ^ 0xFF) >> 8 == 0x40;
    HighByteTells(x & 0xFF);
  }

  /** And no other two bytes do. */
  lemma ResidueOnly(r: bv16, a: bv8, b: bv8)
    requires Byte16(Byte16(r, a), b) == RESIDUE
    ensures InvertedCrc(r, [a, b])
  {
    hide Shift16, Xor;
    EightOfOnes();
    EightShiftsInjective16(Byte16(r, a) ^ (b as bv16), 0x4040 ^ 0xFF);
    LowByteRight(r, a, b);
    LowTells(r, a);
    EightShiftsSplit(r ^ (a as bv16));
    HighTells(r, b);
    assert [a, b][0] == a && [a, b][1] == b;
  }

  lemma RunOneMore(c: bv16, a: seq<bv8>, x: bv8)
    ensures Run16(c, a + [x]) == Byte16(Run16(c, a), x)
  {
    hide Byte16;
    assert (a + [x])[..|a|] == a;
  }

  lemma RunTwoMore(c: bv16, a: seq<bv8>, x: bv8, y: bv8)
    ensures Run16(c, a + [x, y]) == Byte16(Byte16(Run16(c, a), x), y)
  {
    hide Byte16, Run16;
    RunOneMore(c, a, x);
    RunOneMore(c, a + [x], y);
    assert a + [x] + [y] == a + [x, y];
  }

  /** A message and two bytes bring the register to the residue if and only if the check accepts the two bytes. */
  lemma Residue16(c: bv16, a: seq<bv8>, x: bv8, y: bv8)
    ensures Run16(c, a + [x, y]) == RESIDUE <==> InvertedCrc(Run16(c, a), [x, y])
  {
    hide Byte16, InvertedCrc;
    var r := Run16(c, a);
    RunTwoMore(c, a, x, y);
    if InvertedCrc(r, [x, y]) { ResidueReached(r, x, y); }
    if Byte16(Byte16(r, x), y) == RESIDUE { ResidueOnly(r, x, y); }
  }
}
