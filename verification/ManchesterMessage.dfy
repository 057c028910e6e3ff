/**
 The 16-bit message format of the Manchester library: four bits of identification, four
 bits of checksum, eight bits of data.
 */
module ManchesterMessage {
  function Checksum(id: bv16, data: bv16): bv16 { (id ^ data ^ (data >> 4) ^ 3) & 0x0F }

  /** encodeMessage; bits of the identification above the fourth fall off the top. */
  function Encode(id: bv16, data: bv16): bv16
    requires id <= 0xFF && data <= 0xFF
  {
    Joined(id, Checksum(id, data), data)
  }

  function Joined(id: bv16, checksum: bv16, data: bv16): bv16 { (id << 12) | (checksum << 8) | data }

  function IdOf(m: bv16): bv16 { m >> 12 }

  function ChecksumOf(m: bv16): bv16 { (m >> 8) & 0x0F }

  function DataOf(m: bv16): bv16 { m & 0xFF }

  /** What decodeMessage returns: whether the checksum received is the one expected. */
  predicate Decodes(m: bv16) { ChecksumOf(m) == Checksum(IdOf(m), DataOf(m)) }

  lemma ChecksumFits(id: bv16, data: bv16)
    ensures Checksum(id, data) <= 0x0F && Checksum(id & 0x0F, data) == Checksum(id, data)
  {
  }

  /** The three fields of a message. */
  lemma Fields(id: bv16, c: bv16, data: bv16)
    requires c <= 0x0F && data <= 0xFF
    ensures var m := Joined(id, c, data);
      IdOf(m) == id & 0x0F && ChecksumOf(m) == c && DataOf(m) == data
  {
  }

  lemma Parts(m: bv16)
    ensures m == Joined(IdOf(m), ChecksumOf(m), DataOf(m))
    ensures IdOf(m) <= 0x0F && DataOf(m) <= 0xFF && IdOf(m) <= 0xFF
  {
  }

  /** decodeMessage accepts exactly the messages that encodeMessage makes of the parts it finds. */
  lemma DecodesExactly(m: bv16)
    ensures IdOf(m) <= 0xFF && DataOf(m) <= 0xFF
    ensures Decodes(m) <==> m == Encode(IdOf(m), DataOf(m))
  {
    hide Checksum, Joined, IdOf, ChecksumOf, DataOf;
    Parts(m);
    ChecksumFits(IdOf(m), DataOf(m));
    Fields(IdOf(m), Checksum(IdOf(m), DataOf(m)), DataOf(m));
  }

  /** A message comes back with its data, and with its identification if and only if that has four bits. */
  lemma MessageRoundTrip(id: bv16, data: bv16)
    requires id <= 0xFF && data <= 0xFF
    ensures var m := Encode(id, data); Decodes(m) && DataOf(m) == data && (IdOf(m) == id <==> id <= 0x0F)
  {
    hide Checksum, Joined, IdOf, ChecksumOf, DataOf;
    ChecksumFits(id, data);
    Fields(id, Checksum(id, data), data);
    FourBits(id);
  }

  lemma FourBits(id: bv16)
    ensures id & 0x0F == id <==> id <= 0x0F
  {
  }

  /** A change confined to one of the four-bit groups is always noticed. */
  lemma GroupDamage(m: bv16, e: bv16)
    requires Decodes(m) && e != 0
    requires e & 0x0FFF == 0 || e & 0xF0FF == 0 || e & 0xFF0F == 0 || e & 0xFFF0 == 0
    ensures !Decodes(m ^ e)
  {
  }
}
