/**
 The BTLE object: one packet buffer, worked on in place for sending and for receiving.
 */
module BtleRadio {
  import opened Basics
  import opened BtleCodec
  import opened Btle

  // ---------- one byte further ----------

  lemma SwapNext(s: seq<bv8>, k: nat)
    requires k < |s|
    ensures (Swapped(s[..k]) + s[k..])[k := SwapByte(s[k])] == Swapped(s[..k + 1]) + s[k + 1..]
  {
  }

  lemma WhitenNext(s: seq<bv8>, lfsr: bv8, k: nat)
    requires k < |s|
    ensures (Whitened(s[..k], lfsr) + s[k..])[k := s[k] ^ KeyAt(lfsr, k)] == Whitened(s[..k + 1], lfsr) + s[k + 1..]
  {
    hide Whitened, KeyAt;
    WhitenedGrows(s, lfsr, k);
    PutNext(Whitened(s[..k], lfsr), s, s[k] ^ KeyAt(lfsr, k));
  }

  lemma WhitenedGrows(s: seq<bv8>, lfsr: bv8, k: nat)
    requires k < |s|
    ensures Whitened(s[..k + 1], lfsr) == Whitened(s[..k], lfsr) + [s[k] ^ KeyAt(lfsr, k)]
  {
    hide KeyAt;
    var next := Whitened(s[..k], lfsr) + [s[k] ^ KeyAt(lfsr, k)];
    forall i | 0 <= i <= k ensures Whitened(s[..k + 1], lfsr)[i] == next[i] {
      if i < k { assert s[..k + 1][i] == s[..k][i]; } else { assert s[..k + 1][i] == s[k]; }
    }
  }

  lemma CrcNext(s: seq<bv8>, k: nat)
    requires k < |s|
    ensures Crc(s[..k + 1]) == CrcByte(Crc(s[..k]), s[k])
  {
    assert s[..k + 1][..k] == s[..k];
  }

  /** The eight tests of swapbuf. */
  method Reverse(a: bv8) returns (v: bv8)
    ensures v == SwapByte(a)
  {
    v := 0;
    if a & 0x80 != 0 { v := v | 0x01; }
    if a & 0x40 != 0 { v := v | 0x02; }
    if a & 0x20 != 0 { v := v | 0x04; }
    if a & 0x10 != 0 { v := v | 0x08; }
    if a & 0x08 != 0 { v := v | 0x10; }
    if a & 0x04 != 0 { v := v | 0x20; }
    if a & 0x02 != 0 { v := v | 0x40; }
    if a & 0x01 != 0 { v := v | 0x80; }
  }

  /** The inner loop of whiten. */
  method NextKey(lfsr: bv8) returns (l: bv8, res: bv8)
    ensures (l, res) == KeyByte(lfsr)
  {
    l, res := lfsr, 0;
    var i: bv8 := 1;
    for n := 0 to 8
      invariant KeySteps(l, res, i, 8 - n) == KeyByte(lfsr)
    {
      if l & 0x01 != 0 {
        l := l ^ 0x88;
        res := res | i;
      }
      l := l >> 1;
      i := i << 1;
    }
  }

  lemma SameBit(a: bv8, b: bv8)
    ensures (a & 1 != b & 1) <==> (a & 1 != 0) != (b & 1 != 0)
  {
  }

  lemma XorZero(a: bv8)
    ensures a ^ 0 == a
  {
  }

  lemma Assembled(r: Register, bit: bool, feedback: bool)
    requires feedback == ((r.d0 & 1 != 0) != bit)
    ensures CrcBit(r, bit) == Register(NextHigh(r.d0, r.d1), NextMiddle(r.d1, r.d2, feedback), NextLow(r.d2, feedback))
  {
  }

  lemma ShiftedParts(a: bv8, b: bv8)
    ensures NextHigh(a, b) == if b & 0x01 != 0 then (a >> 1) | 0x80 else a >> 1
    ensures NextMiddle(a, b, false) == if b & 0x01 != 0 then (a >> 1) | 0x80 else a >> 1
    ensures NextLow(a, false) == a >> 1
  {
  }

  /** The shift of the three bytes at dst by one. */
  method ShiftAll(r: Register) returns (d0: bv8, d1: bv8, d2: bv8)
    ensures d0 == NextHigh(r.d0, r.d1) && d1 == NextMiddle(r.d1, r.d2, false) && d2 == NextLow(r.d2, false)
  {
    hide NextHigh, NextMiddle, NextLow;
    ShiftedParts(r.d0, r.d1);
    ShiftedParts(r.d1, r.d2);
    ShiftedParts(r.d2, 0);
    d0, d1, d2 := r.d0, r.d1, r.d2;
    d0 := d0 >> 1;
    if d1 & 0x01 != 0 { d0 := d0 | 0x80; }
    d1 := d1 >> 1;
    if d2 & 0x01 != 0 { d1 := d1 | 0x80; }
    d2 := d2 >> 1;
  }

  lemma Toggled(d1: bv8, d2: bv8)
    ensures NextMiddle(d1, d2, false) ^ 0x60 == NextMiddle(d1, d2, true) &&
      NextLow(d2, false) ^ 0xDA == NextLow(d2, true)
  {
  }

  /** One bit of data into the three bytes at dst. */
  method FeedBit(r: Register, d: bv8) returns (s: Register)
    ensures s == CrcBit(r, d & 1 != 0)
  {
    SameBit(r.d0, d);
    var t := r.d0 & 0x01;
    var d0, d1, d2 := ShiftAll(r);
    var toggle := t != d & 1;
    if toggle {
      Toggled(r.d1, r.d2);
      d2 := d2 ^ 0xDA;
      d1 := d1 ^ 0x60;
    }
    Assembled(r, d & 1 != 0, toggle);
    s := Register(d0, d1, d2);
  }

  /** The inner loop of crc. */
  method FeedByte(r: Register, byte: bv8) returns (s: Register)
    ensures s == CrcByte(r, byte)
  {
    var d := byte;
    s := r;
    for n := 0 to 8
      invariant CrcBits(s, d, 8 - n) == CrcByte(r, byte)
    {
      s := FeedBit(s, d);
      d := d >> 1;
    }
  }

  /** A piece of a sequence replaced. */
  function Spliced<T>(s: seq<T>, at: nat, piece: seq<T>): (r: seq<T>)
    requires at + |piece| <= |s|
    ensures |r| == |s|
  {
    s[..at] + piece + s[at + |piece|..]
  }

  lemma SplicedTwice<T>(s: seq<T>, at: nat, a: seq<T>, b: seq<T>)
    requires at + |a| + |b| <= |s|
    ensures Spliced(Spliced(s, at, a), at + |a|, b) == Spliced(s, at, a + b)
  {
  }

  /** What a packet of n bytes in the buffer looks like on the air. */
  lemma WholeOnAir(current: nat, s: seq<bv8>, n: nat)
    requires current < 3 && n <= |s|
    ensures var w := Whitened(s[..n], Key(current)) + s[n..];
      Swapped(w[..n]) + w[n..] == OnAir(current, s[..n]) + s[n..]
  {
    var w := Whitened(s[..n], Key(current)) + s[n..];
    assert w[..n] == Whitened(s[..n], Key(current)) && w[n..] == s[n..];
  }

  lemma PayloadParts(mac: seq<bv8>, name: seq<bv8>, dataType: bv8, data: seq<bv8>)
    ensures var head := mac + [2, 1, 5] + Chunk(9, name);
      mac + Payload(name, dataType, data) == if data == [] then head else head + Chunk(dataType, data)
  {
  }

  lemma HeaderBefore(s: seq<bv8>, header: seq<bv8>, body: seq<bv8>)
    requires |header| + |body| <= |s|
    ensures var t := Spliced(Spliced(s, |header|, body), 0, header);
      t[..|header| + |body|] == header + body && t[|header| + |body|..] == s[|header| + |body|..]
  {
  }

  lemma AppendPiece(s: seq<bv8>, packet: seq<bv8>, piece: seq<bv8>)
    requires |packet| + |piece| <= |s| && s[..|packet|] == packet
    ensures var t := Spliced(s, |packet|, piece);
      t[..|packet| + |piece|] == packet + piece && t[|packet| + |piece|..] == s[|packet| + |piece|..]
  {
  }

  lemma DropMore(s: seq<bv8>, t: seq<bv8>, m: nat, n: nat)
    requires |s| == |t| && m <= n <= |s| && s[m..] == t[m..]
    ensures s[n..] == t[n..]
  {
    assert s[n..] == s[m..][n - m..] && t[n..] == t[m..][n - m..];
  }

  /** A received packet whose announced size, with the CRC, lies inside the buffer. */
  ghost predicate Readable(current: nat, packet: seq<bv8>)
    requires current < 3
  {
    |packet| == BUFFER_SIZE && TotalSize(FromAir(current, packet)) + 3 <= BUFFER_SIZE
  }

  class BTLE {
    const buffer: array<bv8>
    var current: nat
    const name: seq<bv8>

    ghost predicate Valid()
      reads this
    {
      buffer.Length == BUFFER_SIZE && current < 3
    }

    constructor (name: seq<bv8>)
      ensures Valid() && fresh(buffer) && this.name == name && current == 0
    {
      this.name := name;
      current := 0;
      buffer := new bv8[BUFFER_SIZE](_ => 0);
    }

    method SetChannel(num: nat)
      requires Valid() && num < 256
      modifies this`current
      ensures Valid() && current == if num <= 37 then 0 else if num >= 39 then 2 else 1
      ensures 37 <= num <= 39 ==> Channel(current) as nat == num
    {
      var d := num - 37;
      var atLeast0 := if 0 > d then 0 else d;
      current := if 2 < atLeast0 then 2 else atLeast0;
    }

    method HopChannel()
      requires Valid()
      modifies this`current
      ensures Valid() && current == (old(current) + 1) % 3
    {
      current := current + 1;
      if current >= 3 { current := 0; }
    }

    method SwapBuf(len: nat)
      requires Valid() && len <= BUFFER_SIZE
      modifies buffer
      ensures buffer[..] == Swapped(old(buffer[..len])) + old(buffer[len..])
    {
      ghost var s := buffer[..];
      assert s == Swapped(s[..0]) + s[0..];
      for k := 0 to len
        invariant buffer[..] == Swapped(s[..k]) + s[k..]
      {
        SwapNext(s, k);
        assert buffer[k] == buffer[..][k] == s[k];
        var v := Reverse(buffer[k]);
        buffer[k] := v;
      }
    }

    method Whiten(len: nat)
      requires Valid() && len <= BUFFER_SIZE
      modifies buffer
      ensures buffer[..] == Whitened(old(buffer[..len]), Key(current)) + old(buffer[len..])
    {
      ghost var s := buffer[..];
      var lfsr := Key(current);
      assert s == Whitened(s[..0], lfsr) + s[0..];
      for k := 0 to len
        invariant buffer[..] == Whitened(s[..k], Key(current)) + s[k..] && lfsr == LfsrAt(Key(current), k)
      {
        WhitenNext(s, Key(current), k);
        assert buffer[k] == buffer[..][k] == s[k];
        var res;
        lfsr, res := NextKey(lfsr);
        buffer[k] := buffer[k] ^ res;
      }
    }

    method ComputeCrc(len: nat) returns (r: Register)
      requires Valid() && len <= BUFFER_SIZE
      ensures r == Crc(buffer[..len])
    {
      r := Register(0xAA, 0xAA, 0xAA);
      ghost var s := buffer[..];
      for k := 0 to len
        invariant r == Crc(s[..k])
      {
        CrcNext(s, k);
        r := FeedByte(r, buffer[k]);
      }
      assert s[..len] == buffer[..len];
    }

    /** A piece of the packet. */
    method Store(at: nat, piece: seq<bv8>)
      requires Valid() && at + |piece| <= BUFFER_SIZE
      modifies buffer
      ensures buffer[..] == Spliced(old(buffer[..]), at, piece)
    {
      for i := 0 to |piece|
        invariant buffer[..] == Spliced(old(buffer[..]), at, piece[..i])
      {
        assert piece[..i + 1] == piece[..i] + [piece[i]];
        SplicedTwice(old(buffer[..]), at, piece[..i], [piece[i]]);
        buffer[at + i] := piece[i];
      }
      assert piece[..|piece|] == piece;
    }

    method AddChunk(pls: nat, chunkType: bv8, data: seq<bv8>)
      requires Valid() && 8 + pls + |data| + 2 <= BUFFER_SIZE
      modifies buffer
      ensures buffer[..] == Spliced(old(buffer[..]), 8 + pls, Chunk(chunkType, data))
    {
      ghost var s := buffer[..];
      ghost var head := [ByteOf(|data| + 1), chunkType];
      Store(8 + pls, [ByteOf(|data| + 1), chunkType]);
      Store(8 + pls + 2, data);
      SplicedTwice(s, 8 + pls, head, data);
    }

    /** The address and the chunks of the payload. */
    method FillPayload(mac: seq<bv8>, dataType: bv8, data: seq<bv8>) returns (pls: nat)
      requires Valid() && |mac| == 6 && |Payload(name, dataType, data)| <= 24
      modifies buffer
      ensures pls == |Payload(name, dataType, data)|
      ensures buffer[..] == Spliced(old(buffer[..]), 2, mac + Payload(name, dataType, data))
    {
      ghost var s := buffer[..];
      Store(2, mac);
      Store(8, [2, 1, 5]);
      ghost var flags: seq<bv8> := [2, 1, 5];
      SplicedTwice(s, 2, mac, flags);
      pls := 3;
      AddChunk(pls, 9, name);
      SplicedTwice(s, 2, mac + flags, Chunk(9, name));
      pls := pls + |name| + 2;
      if |data| > 0 {
        AddChunk(pls, dataType, data);
        SplicedTwice(s, 2, mac + flags + Chunk(9, name), Chunk(dataType, data));
        pls := pls + |data| + 2;
      }
      PayloadParts(mac, name, dataType, data);
    }

    /** Header and CRC around an address and payload already in place, then whitening and bit order. */
    method Assemble(ghost mac: seq<bv8>, ghost payload: seq<bv8>, pls: nat) returns (outbuf: seq<bv8>)
      requires Valid() && |mac| == 6 && pls == |payload| <= MAX_PAYLOAD && buffer[2..pls + 8] == mac + payload
      modifies buffer
      ensures outbuf == OnAir(current, WithCrc(Pdu(mac, payload)))
      ensures buffer[..pls + 11] == outbuf && buffer[pls + 11..] == old(buffer[pls + 11..])
    {
      ghost var s := buffer[..];
      ghost var pdu := Pdu(mac, payload);
      assert s == Spliced(s, 2, mac + payload);
      Store(0, [0x42, ByteOf(pls + 6)]);
      HeaderBefore(s, [0x42, ByteOf(pls + 6)], mac + payload);
      assert [0x42, ByteOf(pls + 6)] + (mac + payload) == pdu;
      ghost var t := buffer[..];
      assert buffer[..pls + 8] == t[..pls + 8] == pdu;
      var crc := ComputeCrc(pls + 8);
      Store(pls + 8, [crc.d0, crc.d1, crc.d2]);
      AppendPiece(t, pdu, Bytes(crc));
      ghost var u := buffer[..];
      assert u[..pls + 11] == WithCrc(pdu);
      DropMore(s, t, pls + 8, pls + 11);
      Whiten(pls + 11);
      assert old(buffer[..]) == s;
      SwapBuf(pls + 11);
      WholeOnAir(current, u, pls + 11);
      outbuf := buffer[..pls + 11];
      assert outbuf == buffer[..][..pls + 11];
    }

    /** Packets over 21 bytes of payload are not sent; there is room in the buffer for 24. */
    method Advertise(mac: seq<bv8>, dataType: bv8, data: seq<bv8>) returns (sent: Option<seq<bv8>>)
      requires Valid() && |mac| == 6 && |Payload(name, dataType, data)| <= 24
      modifies buffer
      ensures var payload := Payload(name, dataType, data);
        if |payload| > MAX_PAYLOAD then
          sent == None && buffer[..] == Spliced(old(buffer[..]), 2, mac + payload)
        else
          && sent == Some(OnAir(current, WithCrc(Pdu(mac, payload))))
          && buffer[..|payload| + 11] == sent.value
    {
      ghost var payload := Payload(name, dataType, data);
      var pls := FillPayload(mac, dataType, data);
      if pls > MAX_PAYLOAD { return None; }
      assert buffer[2..pls + 8] == buffer[..][2..pls + 8] == mac + payload;
      var outbuf := Assemble(mac, payload, pls);
      return Some(outbuf);
    }

    /** The comparison of the CRC in the packet with the computed one. */
    method CheckCrc(totalSize: nat) returns (ok: bool)
      requires Valid() && totalSize + 3 <= BUFFER_SIZE
      ensures ok <==> Checked(buffer[..], totalSize)
    {
      var crc := ComputeCrc(totalSize);
      var inCrc := [crc.d0, crc.d1, crc.d2];
      ghost var buf := buffer[..];
      assert buffer[..totalSize] == buf[..totalSize];
      for i := 0 to 3
        invariant forall j :: 0 <= j < i ==> buf[totalSize..totalSize + 3][j] == inCrc[j]
      {
        assert buffer[totalSize + i] == buf[totalSize..totalSize + 3][i];
        if buffer[totalSize + i] != inCrc[i] { return false; }
      }
      return true;
    }

    /** One packet out of the radio, decoded in place. */
    method Decode(packet: seq<bv8>)
      requires Valid() && |packet| == BUFFER_SIZE
      modifies buffer
      ensures buffer[..] == FromAir(current, packet)
    {
      Store(0, packet);
      assert buffer[..BUFFER_SIZE] == packet;
      SwapBuf(BUFFER_SIZE);
      assert buffer[..BUFFER_SIZE] == Swapped(packet);
      Whiten(BUFFER_SIZE);
    }

    /** A packet decoded, and checked. */
    method ReadPacket(packet: seq<bv8>) returns (ok: bool)
      requires Valid() && Readable(current, packet)
      modifies buffer
      ensures buffer[..] == FromAir(current, packet) && (ok <==> Accepts(FromAir(current, packet)))
    {
      hide NatOf, FromAir, Checked;
      Decode(packet);
      assert buffer[1] == buffer[..][1];
      var totalSize := (NatOf(buffer[1]) + 2) % 256;
      ok := CheckCrc(totalSize);
    }

    /** The packets that the radio has received; the last one read stays in the buffer. */
    method Listen(packets: seq<seq<bv8>>) returns (ok: bool)
      requires Valid() && forall k :: 0 <= k < |packets| ==> Readable(current, packets[k])
      modifies buffer
      ensures ok <==> packets != [] && forall k :: 0 <= k < |packets| ==> Accepts(FromAir(current, packets[k]))
      ensures ok ==> buffer[..] == FromAir(current, packets[|packets| - 1])
    {
      hide Accepts, FromAir;
      if packets == [] { return false; }
      ghost var c := current;
      for n := 0 to |packets|
        invariant current == c
        invariant forall k :: 0 <= k < n ==> Accepts(FromAir(c, packets[k]))
        invariant n > 0 ==> buffer[..] == FromAir(c, packets[n - 1])
      {
        var good := ReadPacket(packets[n]);
        if !good { return false; }
      }
      return true;
    }
  }

  /** Advertised by one object, listened for by another on the same channel, whatever else is in the packet's
      32 bytes: accepted, and the scanner reads from its buffer what was meant. */
  method AdvertiseAndListen(sender: BTLE, receiver: BTLE, mac: seq<bv8>, dataType: bv8, data: seq<bv8>,
                            trail: seq<bv8>) returns (heard: bool)
    requires sender.Valid() && receiver.Valid() && sender.buffer != receiver.buffer
    requires sender.current == receiver.current && |mac| == 6
    requires var n := |Payload(sender.name, dataType, data)|; n <= MAX_PAYLOAD && n + 11 + |trail| == BUFFER_SIZE
    modifies sender.buffer, receiver.buffer
    ensures heard && receiver.Valid()
    ensures var buf := receiver.buffer[..];
      && 8 <= TotalSize(buf) <= BUFFER_SIZE
      && buf[0] == 0x42 && buf[1] as nat == TotalSize(buf) - 2 && buf[2..8] == mac
      && ReadAds(buf[8..TotalSize(buf)]) == Some(MeantAds(sender.name, dataType, data))
  {
    hide Accepts, FromAir, OnAir, WithCrc, Pdu, Payload, ReadAds, TotalSize, MeantAds;
    var sent := sender.Advertise(mac, dataType, data);
    ghost var c, payload := sender.current, Payload(sender.name, dataType, data);
    ReceivedReads(c, mac, sender.name, dataType, data, trail);
    Recovered(c, mac, payload, trail);
    heard := receiver.Listen([sent.value + trail]);
  }
}
