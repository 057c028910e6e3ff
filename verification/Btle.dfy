/**
 Sending and receiving Bluetooth low energy advertisements over an nRF24 radio: one
 buffer, worked on in place.
 */
module Btle {
  import opened Basics
  import opened Bits
  import opened BtleCodec

  const BUFFER_SIZE: nat := 32
  const MAX_PAYLOAD: nat := 21

  // ---------- sizes in bytes ----------

  /** The lowest k bits of a number. */
  function Low(n: nat, k: nat): bv8
    decreases k, n
  {
    if k == 0 then 0 else (Low(n / 2, k - 1) << 1) | (if n % 2 == 1 then 1 else 0)
  }

  /** The number that the lowest k bits of a byte spell. */
  function Spelled(b: bv8, k: nat): nat
    decreases k, b
  {
    if k == 0 then 0 else 2 * Spelled(b >> 1, k - 1) + if b & 1 != 0 then 1 else 0
  }

  function ByteOf(n: nat): bv8 { Low(n, BITS) }

  function NatOf(b: bv8): nat { Spelled(b, BITS) }

  function Limit(k: nat): nat { if k == 0 then 1 else 2 * Limit(k - 1) }

  lemma Doubled(x: bv8, on: bool, k: nat)
    requires 0 < k <= 8 && Fits(x, k - 1)
    ensures var b := (x << 1) | (if on then 1 else 0);
      Fits(b, k) && b >> 1 == x && (b & 1 != 0 <==> on)
  {
  }

  lemma {:induction false} LowSpells(n: nat, k: nat)
    requires k <= 8 && n < Limit(k)
    ensures Fits(Low(n, k), k) && Spelled(Low(n, k), k) == n
    decreases k
  {
    if k > 0 {
      LowSpells(n / 2, k - 1);
      Doubled(Low(n / 2, k - 1), n % 2 == 1, k);
    }
  }

  lemma SizeByte(n: nat)
    requires n < 256
    ensures NatOf(ByteOf(n)) == n
  {
    assert Limit(BITS) == 256;
    LowSpells(n, BITS);
  }

  // ---------- packets ----------

  /** A chunk of a payload: its size without the size byte, its type, and its data. */
  function Chunk(chunkType: bv8, data: seq<bv8>): (c: seq<bv8>)
    ensures |c| == |data| + 2
  {
    [ByteOf(|data| + 1), chunkType] + data
  }

  /** Device flags, the complete local name, and data of the given type if there is any. */
  function Payload(name: seq<bv8>, dataType: bv8, data: seq<bv8>): (p: seq<bv8>)
    ensures |p| == 5 + |name| + if data == [] then 0 else 2 + |data|
  {
    [2, 1, 5] + Chunk(9, name) + if data == [] then [] else Chunk(dataType, data)
  }

  /** Header, address and payload. */
  function Pdu(mac: seq<bv8>, payload: seq<bv8>): (p: seq<bv8>)
    requires |mac| == 6 && |payload| <= MAX_PAYLOAD
    ensures |p| == |payload| + 8
  {
    [0x42, ByteOf(|payload| + 6)] + mac + payload
  }

  function WithCrc(pdu: seq<bv8>): (p: seq<bv8>)
    ensures |p| == |pdu| + 3
  {
    pdu + Bytes(Crc(pdu))
  }

  /** The channel index 37, 38 or 39, with bit 6 set. */
  function Key(current: nat): bv8
    requires current < 3
  {
    (if current == 0 then 37 else if current == 1 then 38 else 39) | 0x40
  }

  /** The channel index of this position in the list. */
  function Channel(current: nat): bv8
    requires current < 3
  {
    37 + current as bv8
  }

  /** The keystream is that of the standard's register for this channel. */
  lemma ChannelKey(current: nat, i: nat, j: nat)
    requires current < 3 && j < 8
    ensures Bit(KeyAt(Key(current), i), j) == Clocks(Initial(Channel(current)), 8 * i + j).p6
  {
    hide KeyAt, Clocks;
    KeystreamIsStandard(Channel(current), i, j);
  }

  /** Whitened, then in wire bit order. */
  function OnAir(current: nat, packet: seq<bv8>): (s: seq<bv8>)
    requires current < 3
    ensures |s| == |packet|
  {
    Swapped(Whitened(packet, Key(current)))
  }

  function FromAir(current: nat, s: seq<bv8>): (packet: seq<bv8>)
    requires current < 3
    ensures |packet| == |s|
  {
    Whitened(Swapped(s), Key(current))
  }

  /** The size that the header announces, with the header itself. */
  function TotalSize(buf: seq<bv8>): nat
    requires |buf| >= 2
  {
    (NatOf(buf[1]) + 2) % 256
  }

  /** The three bytes after the first n are their CRC. */
  ghost predicate Checked(buf: seq<bv8>, n: nat) {
    n + 3 <= |buf| && buf[n..n + 3] == Bytes(Crc(buf[..n]))
  }

  /** The CRC that follows is that of header and payload. */
  ghost predicate Accepts(buf: seq<bv8>) {
    |buf| >= 2 && Checked(buf, TotalSize(buf))
  }

  lemma AirPrefix(current: nat, a: seq<bv8>, b: seq<bv8>)
    requires current < 3
    ensures FromAir(current, a + b)[..|a|] == FromAir(current, a)
  {
  }

  lemma AirTwice(current: nat, packet: seq<bv8>)
    requires current < 3
    ensures FromAir(current, OnAir(current, packet)) == packet
  {
    SwappedTwice(Whitened(packet, Key(current)));
    WhitenedTwice(packet, Key(current));
  }

  lemma PrefixRecovered(current: nat, packet: seq<bv8>, trail: seq<bv8>)
    requires current < 3
    ensures FromAir(current, OnAir(current, packet) + trail)[..|packet|] == packet
  {
    AirPrefix(current, OnAir(current, packet), trail);
    AirTwice(current, packet);
  }

  lemma PduSize(mac: seq<bv8>, payload: seq<bv8>)
    requires |mac| == 6 && |payload| <= MAX_PAYLOAD
    ensures TotalSize(Pdu(mac, payload)) == |Pdu(mac, payload)|
  {
    SizeByte(|payload| + 6);
  }

  lemma Slices<T>(s: seq<T>, a: seq<T>, b: seq<T>)
    requires |s| >= |a| + |b| && s[..|a| + |b|] == a + b
    ensures s[..|a|] == a && s[|a|..|a| + |b|] == b
  {
    var t := s[..|a| + |b|];
    assert t[..|a|] == s[..|a|] && t[|a|..] == s[|a|..|a| + |b|];
  }

  lemma PrefixChecked(buf: seq<bv8>, pdu: seq<bv8>, crc: seq<bv8>)
    requires |crc| == 3 && |buf| >= |pdu| + 3 && buf[..|pdu| + 3] == pdu + crc && crc == Bytes(Crc(pdu))
    ensures buf[..|pdu|] == pdu && buf[|pdu|..|pdu| + 3] == crc && Checked(buf, |pdu|)
  {
    Slices(buf, pdu, crc);
  }

  /** The announced size is in the second byte. */
  lemma SizeKept(buf: seq<bv8>, pdu: seq<bv8>)
    requires |buf| >= |pdu| >= 2 && buf[..|pdu|] == pdu
    ensures TotalSize(buf) == TotalSize(pdu)
  {
    assert buf[1] == buf[..|pdu|][1];
  }

  /**
     Whatever trails a packet in the receive buffer, a receiver on the same channel finds
     header, address, payload and CRC as they were sent, and accepts.
   */
  lemma Recovered(current: nat, mac: seq<bv8>, payload: seq<bv8>, trail: seq<bv8>)
    requires current < 3 && |mac| == 6 && |payload| <= MAX_PAYLOAD
    ensures var pdu := Pdu(mac, payload);
      var buf := FromAir(current, OnAir(current, WithCrc(pdu)) + trail);
      && TotalSize(buf) == |pdu| && buf[..|pdu|] == pdu && buf[|pdu|..|pdu| + 3] == Bytes(Crc(pdu))
      && Accepts(buf)
  {
    var pdu := Pdu(mac, payload);
    PrefixRecovered(current, WithCrc(pdu), trail);
    PduSize(mac, payload);
    var buf := FromAir(current, OnAir(current, WithCrc(pdu)) + trail);
    PrefixChecked(buf, pdu, Bytes(Crc(pdu)));
    SizeKept(buf, pdu);
  }

  // ---------- what a scanner reads ----------

  /** A structure of advertising data: its type and its data. */
  datatype Ad = Ad(adType: bv8, data: seq<bv8>)

  /** Advertising data as a scanner reads it: a size byte, a type, and one byte less than the size of data,
      over and over up to the end. None if a size is zero or does not fit. */
  function ReadAds(s: seq<bv8>): Option<seq<Ad>>
    decreases |s|
  {
    if s == [] then Some([])
    else
      var size := s[0] as nat;
      if size == 0 || size >= |s| then None
      else
        match ReadAds(s[size + 1..])
        case None => None
        case Some(rest) => Some([Ad(s[1], s[2..size + 1])] + rest)
  }

  lemma HalfOf(b: bv8)
    ensures b as nat == 2 * ((b >> 1) as nat) + if b & 1 != 0 then 1 else 0
  {
  }

  lemma {:induction false} SpelledIs(b: bv8, k: nat)
    requires b as nat < Limit(k)
    ensures Spelled(b, k) == b as nat
    decreases k
  {
    if k > 0 {
      HalfOf(b);
      SpelledIs(b >> 1, k - 1);
    }
  }

  /** The size byte is the number itself. */
  lemma ByteIs(n: nat)
    requires n < 256
    ensures ByteOf(n) as nat == n
  {
    SizeByte(n);
    assert Limit(BITS) == 256;
    SpelledIs(ByteOf(n), BITS);
  }

  lemma ReadOne(c: seq<bv8>, chunkType: bv8, data: seq<bv8>, rest: seq<bv8>)
    requires |data| <= 254 && |c| == |data| + 2 && c[0] as nat == |data| + 1 && c[1] == chunkType && c[2..] == data
    ensures ReadAds(c + rest) ==
            match ReadAds(rest) case None => None case Some(ads) => Some([Ad(chunkType, data)] + ads)
  {
    var s := c + rest;
    assert s[|c|..] == rest && s[2..|c|] == data && s[0] == c[0] && s[1] == c[1];
  }

  lemma ReadChunk(chunkType: bv8, data: seq<bv8>, rest: seq<bv8>)
    requires |data| <= 254
    ensures ReadAds(Chunk(chunkType, data) + rest) ==
            match ReadAds(rest) case None => None case Some(ads) => Some([Ad(chunkType, data)] + ads)
  {
    ByteIs(|data| + 1);
    ReadOne(Chunk(chunkType, data), chunkType, data, rest);
  }

  /** What advertise is meant to say. */
  function MeantAds(name: seq<bv8>, dataType: bv8, data: seq<bv8>): seq<Ad> {
    [Ad(1, [5]), Ad(9, name)] + if data == [] then [] else [Ad(dataType, data)]
  }

  /** A scanner reads exactly the flags, the name and the data, and no byte is left over. */
  lemma PayloadReads(name: seq<bv8>, dataType: bv8, data: seq<bv8>)
    requires |name| <= 254 && |data| <= 254
    ensures ReadAds(Payload(name, dataType, data)) == Some(MeantAds(name, dataType, data))
  {
    hide ReadAds, Chunk;
    var last := if data == [] then [] else Chunk(dataType, data);
    var flags: seq<bv8> := [2, 1, 5];
    ReadNothing();
    if data != [] {
      ReadChunk(dataType, data, []);
      assert last + [] == last;
    }
    ReadChunk(9, name, last);
    ReadOne(flags, 1, [5], Chunk(9, name) + last);
    Assoc(flags, Chunk(9, name), last);
    var ads := if data == [] then [] else [Ad(dataType, data)];
    assert ReadAds(last) == Some(ads) by { assert ads + [] == ads; }
    assert [Ad(1, [5])] + ([Ad(9, name)] + ads) == MeantAds(name, dataType, data);
  }

  lemma ReadNothing()
    ensures ReadAds([]) == Some([])
  {
  }

  /** And so it does in the receive buffer, whatever trails the packet. */
  lemma ReceivedReads(current: nat, mac: seq<bv8>, name: seq<bv8>, dataType: bv8, data: seq<bv8>, trail: seq<bv8>)
    requires current < 3 && |mac| == 6 && |Payload(name, dataType, data)| <= MAX_PAYLOAD
    ensures var buf := FromAir(current, OnAir(current, WithCrc(Pdu(mac, Payload(name, dataType, data)))) + trail);
      && Accepts(buf) && 8 <= TotalSize(buf) <= |buf|
      && buf[0] == 0x42 && buf[1] as nat == TotalSize(buf) - 2 && buf[2..8] == mac
      && ReadAds(buf[8..TotalSize(buf)]) == Some(MeantAds(name, dataType, data))
  {
    hide ReadAds, FromAir, OnAir, Crc, Payload;
    var payload := Payload(name, dataType, data);
    var buf := FromAir(current, OnAir(current, WithCrc(Pdu(mac, payload))) + trail);
    Recovered(current, mac, payload, trail);
    PayloadReads(name, dataType, data);
    InPdu(buf, mac, payload);
  }

  lemma InPdu(buf: seq<bv8>, mac: seq<bv8>, payload: seq<bv8>)
    requires |mac| == 6 && |payload| <= MAX_PAYLOAD
    requires |buf| >= |payload| + 8 && buf[..|payload| + 8] == Pdu(mac, payload)
    ensures buf[0] == 0x42 && buf[1] as nat == |payload| + 6 && buf[2..8] == mac && buf[8..|payload| + 8] == payload
  {
    ByteIs(|payload| + 6);
    var pdu := Pdu(mac, payload);
    assert buf[0] == buf[..|pdu|][0] && buf[1] == buf[..|pdu|][1];
    assert buf[2..8] == buf[..|pdu|][2..8] && buf[8..|pdu|] == buf[..|pdu|][8..];
  }

  // ---------- a damaged byte ----------

  lemma DifferAt(a: seq<bv8>, b: seq<bv8>, j: nat, i: nat)
    requires DifferOnlyAt(a, b, j) && i < |a| && i != j
    ensures a[i] == b[i]
  {
    if i < j { assert a[i] == a[..j][i] && b[i] == b[..j][i]; }
    else { assert a[i] == a[j + 1..][i - j - 1] && b[i] == b[j + 1..][i - j - 1]; }
  }

  lemma ByteFromAir(k: bv8, x: bv8, y: bv8)
    requires x != y
    ensures SwapByte(x) ^ k != SwapByte(y) ^ k
  {
    SwapTwice(x);
    SwapTwice(y);
    XorTwice(SwapByte(x), k);
    XorTwice(SwapByte(y), k);
  }

  lemma DifferFromAir(current: nat, a: seq<bv8>, b: seq<bv8>, j: nat)
    requires current < 3 && DifferOnlyAt(a, b, j)
    ensures DifferOnlyAt(FromAir(current, a), FromAir(current, b), j)
  {
    var x, y := FromAir(current, a), FromAir(current, b);
    ByteFromAir(KeyAt(Key(current), j), a[j], b[j]);
    forall i | 0 <= i < |a| && i != j ensures x[i] == y[i] { DifferAt(a, b, j, i); }
    assert x[..j] == y[..j];
    assert x[j + 1..] == y[j + 1..];
  }

  lemma DifferInside(a: seq<bv8>, b: seq<bv8>, j: nat, lo: nat, hi: nat)
    requires DifferOnlyAt(a, b, j) && lo <= hi <= |a|
    ensures if lo <= j < hi then DifferOnlyAt(a[lo..hi], b[lo..hi], j - lo) else a[lo..hi] == b[lo..hi]
  {
    forall i | 0 <= i < |a| && i != j ensures a[i] == b[i] { DifferAt(a, b, j, i); }
  }

  lemma BrokenBody(x: seq<bv8>, y: seq<bv8>, n: nat, j: nat)
    requires DifferOnlyAt(x, y, j) && j < n && n + 3 <= |x|
    ensures Crc(x[..n]) != Crc(y[..n]) && x[n..n + 3] == y[n..n + 3]
  {
    DifferInside(x, y, j, 0, n);
    DifferInside(x, y, j, n, n + 3);
    assert x[0..n] == x[..n] && y[0..n] == y[..n];
    OneByteChange(x[..n], y[..n], j);
  }

  lemma BrokenCrc(x: seq<bv8>, y: seq<bv8>, n: nat, j: nat)
    requires DifferOnlyAt(x, y, j) && n <= j < n + 3 <= |x|
    ensures x[..n] == y[..n] && x[n..n + 3] != y[n..n + 3]
  {
    DifferInside(x, y, j, 0, n);
    DifferInside(x, y, j, n, n + 3);
    assert x[0..n] == x[..n] && y[0..n] == y[..n];
  }

  lemma BrokenAt(x: seq<bv8>, y: seq<bv8>, n: nat, j: nat)
    requires DifferOnlyAt(x, y, j) && Checked(x, n) && j < n + 3
    ensures !Checked(y, n)
  {
    if j < n { BrokenBody(x, y, n, j); } else { BrokenCrc(x, y, n, j); }
    BytesDetermine(Crc(x[..n]), Crc(y[..n]));
  }

  lemma BrokenPacket(x: seq<bv8>, y: seq<bv8>, j: nat)
    requires |x| >= 2 && DifferOnlyAt(x, y, j) && j != 1 && Accepts(x) && j < TotalSize(x) + 3
    ensures !Accepts(y)
  {
    DifferAt(x, y, j, 1);
    BrokenAt(x, y, TotalSize(x), j);
  }

  lemma BytesDetermine(r: Register, s: Register)
    ensures Bytes(r) == Bytes(s) ==> r == s
  {
    assert r == Register(Bytes(r)[0], Bytes(r)[1], Bytes(r)[2]);
    assert s == Register(Bytes(s)[0], Bytes(s)[1], Bytes(s)[2]);
  }

  /** One damaged byte on the air, other than the length, makes an accepted packet unacceptable. */
  lemma DamageDetected(current: nat, s: seq<bv8>, t: seq<bv8>, j: nat)
    requires current < 3 && |s| >= 2 && DifferOnlyAt(s, t, j) && j != 1
    requires Accepts(FromAir(current, s)) && j < TotalSize(FromAir(current, s)) + 3
    ensures !Accepts(FromAir(current, t))
  {
    DifferFromAir(current, s, t, j);
    BrokenPacket(FromAir(current, s), FromAir(current, t), j);
  }
}
