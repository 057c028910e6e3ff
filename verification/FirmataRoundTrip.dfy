/**
 What the Firmata parser makes of messages: those that the library's own encoders write, and
 those that only a host sends.
 */
module FirmataRoundTrip {
  import opened Basics
  import opened Bytes
  import opened FirmataParser

  datatype Message =
    | AnalogMsg(pin: Byte, value: int)
    | DigitalMsg(port: Byte, data: int)
    | StringMsg(text: seq<Byte>)
    | PinModeMsg(pin: Byte, mode: Byte)
    | PinValueMsg(pin: Byte, level: Byte)
    | ReportAnalogMsg(channel: Byte, on: Byte)
    | ReportDigitalMsg(port: Byte, on: Byte)
    | SysexMsg(command: Byte, argv: seq<Byte>)
    | FirmwareRequest
    | VersionRequest
    | ResetRequest

  /** A message on the wire. */
  function Encode(m: Message): seq<Byte> {
    match m
    case AnalogMsg(pin, value) => EncodeAnalog(pin, value)
    case DigitalMsg(port, data) => EncodeDigital(port, data)
    case StringMsg(text) => EncodeString(text)
    case PinModeMsg(pin, mode) => [0xF4, pin, mode]
    case PinValueMsg(pin, level) => [0xF5, pin, level]
    case ReportAnalogMsg(channel, on) => [0xC0 + channel % 16, on]
    case ReportDigitalMsg(port, on) => [0xD0 + port % 16, on]
    case SysexMsg(command, argv) => [0xF0] + ([command] + argv) + [0xF7]
    case FirmwareRequest => [0xF0] + [0x79] + [0xF7]
    case VersionRequest => [0xF9]
    case ResetRequest => [0xFF]
  }

  /** The callback that a message is meant to lead to. Channels have four bits and values fourteen. */
  function Meant(m: Message): Callback {
    match m
    case AnalogMsg(pin, value) => Analog(pin % 16, value % 16384)
    case DigitalMsg(port, data) => Digital(port % 16, data % 16384)
    case StringMsg(text) => Text(text)
    case PinModeMsg(pin, mode) => PinMode(pin, mode)
    case PinValueMsg(pin, level) => PinValue(pin, level)
    case ReportAnalogMsg(channel, on) => ReportAnalog(channel % 16, on)
    case ReportDigitalMsg(port, on) => ReportDigital(port % 16, on)
    case SysexMsg(command, argv) => Sysex(command, argv)
    case FirmwareRequest => FirmwareReport
    case VersionRequest => VersionReport
    case ResetRequest => Reset
  }

  /** A string of 1 to 31 characters, none of them zero; a port whose bit 14 is clear; data bytes of seven
      bits; a sysex message of at most 64 bytes without its end mark in it, and none of the two that the
      parser takes for itself. */
  ghost predicate Sendable(m: Message) {
    match m
    case AnalogMsg(_, _) => true
    case DigitalMsg(_, data) => data / 128 % 256 < 128
    case StringMsg(text) => 1 <= |text| <= 31 && forall i :: 0 <= i < |text| ==> text[i] != 0
    case PinModeMsg(pin, mode) => pin < 128 && mode < 128
    case PinValueMsg(pin, level) => pin < 128 && level < 128
    case ReportAnalogMsg(_, on) => on < 128
    case ReportDigitalMsg(_, on) => on < 128
    case SysexMsg(command, argv) =>
      command != STRING_DATA && command != REPORT_FIRMWARE && |argv| < MAX_DATA_BYTES && END_SYSEX !in [command] + argv
    case _ => true
  }

  lemma ParseFirst(p: Parser, b: Byte, rest: seq<Byte>)
    requires WellFormed(p) && CanTake(p, b)
    ensures var (p1, calls) := Parse(p, b);
      ParseAll(p, [b] + rest) ==
      match ParseAll(p1, rest) case None => None case Some(r) => Some((r.0, calls + r.1))
  {
    assert ([b] + rest)[1..] == rest;
  }

  lemma ParseNone(p: Parser)
    requires WellFormed(p)
    ensures ParseAll(p, []) == Some((p, []))
  {
  }

  lemma {:induction false} ParseConcat(p: Parser, a: seq<Byte>, b: seq<Byte>)
    requires WellFormed(p)
    ensures ParseAll(p, a + b) ==
      match ParseAll(p, a)
      case None => None
      case Some(r) => (match ParseAll(r.0, b) case None => None case Some(s) => Some((s.0, r.1 + s.1)))
    decreases |a|
  {
    if a == [] {
      assert a + b == b;
      if ParseAll(p, b).Some? { assert [] + ParseAll(p, b).value.1 == ParseAll(p, b).value.1; }
    } else if CanTake(p, a[0]) {
      var (p1, calls) := Parse(p, a[0]);
      ParseConcat(p1, a[1..], b);
      assert (a + b)[1..] == a[1..] + b;
      if ParseAll(p1, a[1..]).Some? {
        var r := ParseAll(p1, a[1..]).value;
        if ParseAll(r.0, b).Some? { Assoc(calls, r.1, ParseAll(r.0, b).value.1); }
      }
    }
  }

  ghost predicate Silent(p: Parser, bytes: seq<Byte>)
    requires WellFormed(p)
  {
    ParseAll(p, bytes).Some? && ParseAll(p, bytes).value.1 == []
  }

  lemma SilentConcat(p: Parser, a: seq<Byte>, b: seq<Byte>)
    requires WellFormed(p) && Silent(p, a) && Silent(ParseAll(p, a).value.0, b)
    ensures Silent(p, a + b) && ParseAll(p, a + b).value.0 == ParseAll(ParseAll(p, a).value.0, b).value.0
  {
    ParseConcat(p, a, b);
  }

  // ---------- messages with one or two data bytes ----------

  /** Commands below 0xF0 come with a channel. */
  ghost predicate TakesChannel(command: Byte) {
    command == ANALOG_MESSAGE || command == DIGITAL_MESSAGE || command == REPORT_ANALOG || command == REPORT_DIGITAL
  }

  /** How many data bytes the protocol has for a command. */
  function DataBytes(command: Byte): nat {
    match command
    case 0xE0 => 2
    case 0x90 => 2
    case 0xF4 => 2
    case 0xF5 => 2
    case 0xC0 => 1
    case 0xD0 => 1
    case _ => 0
  }

  /** A command, whatever was left half done before it. */
  lemma CommandByte(p: Parser, command: Byte, channel: nat)
    requires WellFormed(p) && !p.sysex && DataBytes(command) > 0
    requires channel < 16 && (!TakesChannel(command) ==> channel == 0)
    ensures Parse(p, command + channel) ==
      (p.(channel := if TakesChannel(command) then channel else p.channel, waitForData := DataBytes(command),
          command := command), [])
  {
  }

  lemma OneDataByte(p: Parser, b: Byte)
    requires WellFormed(p) && !p.sysex && p.waitForData == 1 && p.command != 0 && b < 128
    ensures var (p1, calls) := Parse(p, b);
      p1 == p.(waitForData := 0, command := 0, stored := p.stored[0 := b]) &&
      calls == Execute(p.command, p.channel, p1.stored)
  {
  }

  lemma TwoDataBytes(p: Parser, b1: Byte, b2: Byte)
    requires WellFormed(p) && !p.sysex && p.waitForData == 2 && p.command != 0 && b1 < 128 && b2 < 128
    ensures var (p1, calls1) := Parse(p, b1);
      && calls1 == [] && WellFormed(p1) && !p1.sysex
      && Parse(p1, b2).0 == p.(waitForData := 0, command := 0, stored := p.stored[1 := b1][0 := b2])
      && Parse(p1, b2).1 == Execute(p.command, p.channel, p.stored[1 := b1][0 := b2])
  {
  }

  /** What three bytes mean. */
  function Three(command: Byte, channel: Byte, b1: Byte, b2: Byte): Callback {
    match command
    case 0xE0 => Analog(channel, Number(b1, b2))
    case 0x90 => Digital(channel, Number(b1, b2))
    case 0xF4 => PinMode(b1, b2)
    case _ => PinValue(b1, b2)
  }

  lemma ThreeBytes(p: Parser, command: Byte, channel: nat, b1: Byte, b2: Byte)
    requires WellFormed(p) && !p.sysex && DataBytes(command) == 2 && b1 < 128 && b2 < 128
    requires channel < 16 && (!TakesChannel(command) ==> channel == 0)
    ensures var r := ParseAll(p, [command + channel, b1, b2]);
      r.Some? && !r.value.0.sysex && r.value.1 == [Three(command, channel, b1, b2)]
  {
    hide Parse, ParseAll, Number;
    CommandByte(p, command, channel);
    var p1 := Parse(p, command + channel).0;
    TwoDataBytes(p1, b1, b2);
    var p2 := Parse(p1, b1).0;
    ParseNone(Parse(p2, b2).0);
    ParseFirst(p2, b2, []);
    ParseFirst(p1, b1, [b2]);
    ParseFirst(p, command + channel, [b1, b2]);
    assert [b2] + [] == [b2] && [b1] + [b2] == [b1, b2] && [command + channel] + [b1, b2] == [command + channel,
      b1, b2];
  }

  lemma TwoBytes(p: Parser, command: Byte, channel: nat, b: Byte)
    requires WellFormed(p) && !p.sysex && DataBytes(command) == 1 && b < 128 && channel < 16
    ensures var r := ParseAll(p, [command + channel, b]);
      && r.Some? && !r.value.0.sysex
      && r.value.1 == [if command == 0xC0 then ReportAnalog(channel, b) else ReportDigital(channel, b)]
  {
    hide Parse, ParseAll;
    CommandByte(p, command, channel);
    var p1 := Parse(p, command + channel).0;
    OneDataByte(p1, b);
    ParseNone(Parse(p1, b).0);
    ParseFirst(p1, b, []);
    ParseFirst(p, command + channel, [b]);
    assert [b] + [] == [b] && [command + channel] + [b] == [command + channel, b];
  }

  /** A message of one byte. */
  lemma OneByte(p: Parser, b: Byte)
    requires WellFormed(p) && !p.sysex && (b == 0xF9 || b == 0xFF)
    ensures var r := ParseAll(p, [b]);
      r.Some? && !r.value.0.sysex && r.value.1 == [if b == 0xF9 then VersionReport else Reset]
  {
    ParseNone(Parse(p, b).0);
    ParseFirst(p, b, []);
    assert [b] + [] == [b];
  }

  /** Seven bits and seven bits are fourteen. */
  lemma Bits14(value: int)
    ensures Number(value % 128, value / 128 % 128) == value % 16384
    ensures value % 256 % 128 == value % 128
    ensures value / 128 % 256 < 128 ==> value / 128 % 256 == value / 128 % 128
  {
    var q, r := value / 128, value % 128;
    var a, b := q / 128, q % 128;
    Quotient(value, 16384, a, 128 * b + r);
    var c, d := value / 256, value % 256;
    var e, f := d / 128, d % 128;
    Quotient(value, 128, 2 * c + e, f);
    var g, h := q / 256, q % 256;
    if h < 128 { Quotient(q, 128, 2 * g, h); }
  }

  // ---------- strings ----------

  /** In a string message, with these characters received. */
  ghost predicate Receiving(p: Parser, text: seq<Byte>) {
    && WellFormed(p) && p.sysex && p.bytesRead == 1 + 2 * |text| && p.stored[0] == STRING_DATA
    && Decoded(p.stored, |text|) == text
  }

  lemma {:induction false} DecodedUnchanged(s: seq<Byte>, t: seq<Byte>, n: nat)
    requires 2 * n < |s| && |t| == |s| && forall i :: 1 <= i <= 2 * n ==> t[i] == s[i]
    ensures Decoded(t, n) == Decoded(s, n)
    decreases n
  {
    if n > 0 { DecodedUnchanged(s, t, n - 1); }
  }

  lemma CharacterBack(c: Byte)
    ensures Character(c % 128, c / 128 % 128) == c
  {
  }

  /** Two more bytes are one more character. */
  lemma OneCharacter(p: Parser, text: seq<Byte>, c: Byte)
    requires Receiving(p, text) && |text| < 31
    ensures var (p1, calls1) := Parse(p, c % 128);
      && calls1 == [] && CanTake(p1, c / 128 % 128)
      && Parse(p1, c / 128 % 128).1 == [] && Receiving(Parse(p1, c / 128 % 128).0, text + [c])
  {
    var n := |text|;
    var p1 := Parse(p, c % 128).0;
    var p2 := Parse(p1, c / 128 % 128).0;
    DecodedUnchanged(p.stored, p2.stored, n);
    CharacterBack(c);
    assert Decoded(p2.stored, n + 1) == Decoded(p2.stored, n) + [Character(p2.stored[2 * n + 1], p2.stored[2 * n + 2])];
  }

  lemma CharacterParsed(p: Parser, text: seq<Byte>, c: Byte)
    requires Receiving(p, text) && |text| < 31
    ensures var r := ParseAll(p, [c % 128, c / 128 % 128]);
      r.Some? && r.value.1 == [] && Receiving(r.value.0, text + [c])
  {
    var low: Byte, high: Byte := c % 128, c / 128 % 128;
    OneCharacter(p, text, c);
    var p1 := Parse(p, low).0;
    ParseNone(Parse(p1, high).0);
    ParseFirst(p1, high, []);
    ParseFirst(p, low, [high]);
    assert [high] + [] == [high] && [low] + [high] == [low, high];
  }

  lemma {:induction false} ManyCharacters(p: Parser, text: seq<Byte>, rest: seq<Byte>)
    requires Receiving(p, text) && |text| + |rest| <= 31
    ensures var r := ParseAll(p, Pairs(rest)); r.Some? && r.value.1 == [] && Receiving(r.value.0, text + rest)
    decreases |rest|
  {
    hide Parse, Decoded;
    if rest == [] {
      assert text + rest == text;
    } else {
      var c := rest[0];
      CharacterParsed(p, text, c);
      var two: seq<Byte> := [c % 128, c / 128 % 128];
      ManyCharacters(ParseAll(p, two).value.0, text + [c], rest[1..]);
      SilentConcat(p, two, Pairs(rest[1..]));
      assert text + [c] + rest[1..] == text + rest;
      assert Pairs(rest) == two + Pairs(rest[1..]);
    }
  }

  lemma {:induction false} CStringEnds(text: seq<Byte>, rest: seq<Byte>)
    requires (forall i :: 0 <= i < |text| ==> text[i] != 0) && rest != [] && rest[0] == 0
    ensures CString(text + rest) == text
    decreases |text|
  {
    if text == [] {
      assert text + rest == rest;
    } else {
      CStringEnds(text[1..], rest);
      assert (text + rest)[1..] == text[1..] + rest;
    }
  }

  lemma EndMark(text: seq<Byte>, tail: seq<Byte>)
    requires text != [] && tail != []
    ensures (text + tail)[|text| := 0] == text + ([0] + tail[1..]) && (text + tail)[|text| - 1] == text[|text| - 1]
  {
  }

  lemma BufferEnds(stored: seq<Byte>, text: seq<Byte>)
    requires |stored| == MAX_DATA_BYTES && Sendable(StringMsg(text)) && Decoded(stored, |text|) == text
    ensures CString(StringBuffer(stored, |text|)) == text
  {
    var tail := stored[|text|..];
    EndMark(text, tail);
    assert StringBuffer(stored, |text|) == text + ([0] + tail[1..]);
    CStringEnds(text, [0] + tail[1..]);
  }

  /** The end of a string message: the characters, up to a zero that was put after them. */
  lemma StringEnds(p: Parser, text: seq<Byte>)
    requires Receiving(p, text) && Sendable(StringMsg(text))
    ensures var (p1, calls) := Parse(p, END_SYSEX); !p1.sysex && calls == [Text(text)]
  {
    assert (p.bytesRead - 1) / 2 == |text|;
    BufferEnds(p.stored, text);
  }

  lemma StringBegins(p: Parser)
    requires WellFormed(p) && !p.sysex
    ensures var r := ParseAll(p, [START_SYSEX, STRING_DATA]); r.Some? && r.value.1 == [] && Receiving(r.value.0, [])
  {
    var p1 := Parse(p, START_SYSEX).0;
    var p2 := Parse(p1, STRING_DATA).0;
    ParseNone(p2);
    ParseFirst(p1, STRING_DATA, []);
    ParseFirst(p, START_SYSEX, [STRING_DATA]);
    assert [STRING_DATA] + [] == [STRING_DATA] && [START_SYSEX] + [STRING_DATA] == [START_SYSEX, STRING_DATA];
  }

  lemma LastByte(p: Parser, text: seq<Byte>)
    requires Receiving(p, text) && Sendable(StringMsg(text))
    ensures var r := ParseAll(p, [END_SYSEX]); r.Some? && !r.value.0.sysex && r.value.1 == [Text(text)]
  {
    StringEnds(p, text);
    ParseNone(Parse(p, END_SYSEX).0);
    ParseFirst(p, END_SYSEX, []);
    assert [END_SYSEX] + [] == [END_SYSEX];
  }

  lemma StringMessage(p: Parser, text: seq<Byte>)
    requires WellFormed(p) && !p.sysex && Sendable(StringMsg(text))
    ensures var r := ParseAll(p, EncodeString(text)); r.Some? && !r.value.0.sysex && r.value.1 == [Text(text)]
  {
    var head := [START_SYSEX, STRING_DATA];
    StringBegins(p);
    var p2 := ParseAll(p, head).value.0;
    ManyCharacters(p2, [], text);
    assert [] + text == text;
    LastByte(ParseAll(p2, Pairs(text)).value.0, text);
    ParseConcat(p, head, Pairs(text));
    ParseConcat(p, head + Pairs(text), [END_SYSEX]);
  }

  // ---------- other sysex messages ----------

  /** In a sysex message, with these bytes received. */
  ghost predicate Collecting(p: Parser, bytes: seq<Byte>) {
    WellFormed(p) && p.sysex && p.bytesRead == |bytes| && p.stored[..|bytes|] == bytes
  }

  lemma {:induction false} Collect(p: Parser, bytes: seq<Byte>, more: seq<Byte>)
    requires Collecting(p, bytes) && |bytes| + |more| <= MAX_DATA_BYTES && END_SYSEX !in more
    ensures var r := ParseAll(p, more); r.Some? && r.value.1 == [] && Collecting(r.value.0, bytes + more)
    decreases |more|
  {
    if more == [] {
      assert bytes + more == bytes;
    } else {
      var p1 := Parse(p, more[0]).0;
      assert p1.stored[..|bytes| + 1] == bytes + [more[0]];
      Collect(p1, bytes + [more[0]], more[1..]);
      assert bytes + [more[0]] + more[1..] == bytes + more;
      ParseFirst(p, more[0], more[1..]);
      assert [more[0]] + more[1..] == more;
    }
  }

  /** From the start mark to the end mark. */
  lemma SysexMessage(p: Parser, bytes: seq<Byte>, call: Callback)
    requires WellFormed(p) && !p.sysex && 1 <= |bytes| <= MAX_DATA_BYTES && END_SYSEX !in bytes
    requires bytes[0] != STRING_DATA
    requires call == if bytes[0] == REPORT_FIRMWARE then FirmwareReport else Sysex(bytes[0], bytes[1..])
    ensures var r := ParseAll(p, [0xF0] + bytes + [0xF7]); r.Some? && !r.value.0.sysex && r.value.1 == [call]
  {
    var p1 := Parse(p, 0xF0).0;
    Collect(p1, [], bytes);
    assert [] + bytes == bytes;
    var p2 := ParseAll(p1, bytes).value.0;
    assert p2.stored[0] == p2.stored[..|bytes|][0] && p2.stored[1..|bytes|] == p2.stored[..|bytes|][1..];
    var p3 := Parse(p2, 0xF7).0;
    ParseNone(p3);
    ParseFirst(p2, 0xF7, []);
    assert [0xF7] + [] == [0xF7];
    ParseConcat(p1, bytes, [0xF7]);
    ParseFirst(p, 0xF0, bytes + [0xF7]);
    Assoc([0xF0], bytes, [0xF7]);
  }

  // ---------- any messages ----------

  /** One message, in whatever state the parser is, except inside a sysex message. */
  lemma OneMessage(p: Parser, m: Message)
    requires WellFormed(p) && !p.sysex && Sendable(m)
    ensures var r := ParseAll(p, Encode(m)); r.Some? && !r.value.0.sysex && r.value.1 == [Meant(m)]
  {
    hide ParseAll;
    match m
    case AnalogMsg(pin, value) =>
      Bits14(value);
      ThreeBytes(p, ANALOG_MESSAGE, pin % 16, value % 128, value / 128 % 128);
    case DigitalMsg(port, data) =>
      Bits14(data);
      ThreeBytes(p, DIGITAL_MESSAGE, port % 16, data % 256 % 128, data / 128 % 256);
    case StringMsg(text) =>
      StringMessage(p, text);
    case PinModeMsg(pin, mode) =>
      ThreeBytes(p, 0xF4, 0, pin, mode);
    case PinValueMsg(pin, level) =>
      ThreeBytes(p, 0xF5, 0, pin, level);
    case ReportAnalogMsg(channel, on) =>
      TwoBytes(p, 0xC0, channel % 16, on);
    case ReportDigitalMsg(port, on) =>
      TwoBytes(p, 0xD0, port % 16, on);
    case SysexMsg(command, argv) =>
      SysexMessage(p, [command] + argv, Sysex(command, argv));
    case FirmwareRequest =>
      SysexMessage(p, [0x79], FirmwareReport);
    case VersionRequest =>
      OneByte(p, 0xF9);
    case ResetRequest =>
      OneByte(p, 0xFF);
  }

  lemma BeginCalls(p: Parser, b: Byte, other: Callback)
    requires other.Digital?
    ensures Begin(p, b).1 != [other]
  {
  }

  lemma NotDataByte(p: Parser, b2: Byte, other: Callback)
    requires WellFormed(p) && !p.sysex && b2 >= 128 && other.Digital?
    ensures var r := ParseAll(p, [b2]); r.Some? && r.value.1 != [other]
  {
    BeginCalls(p, b2, other);
    ParseNone(Parse(p, b2).0);
    ParseFirst(p, b2, []);
    assert [b2] + [] == [b2];
    assert Begin(p, b2).1 + [] == Begin(p, b2).1;
  }

  /** A digital message whose third byte is not a data byte leads to no digital callback. */
  lemma BrokenDigital(p: Parser, port: Byte, data: int, other: Callback)
    requires WellFormed(p) && !p.sysex && data / 128 % 256 >= 128 && other.Digital?
    ensures var r := ParseAll(p, EncodeDigital(port, data)); r.Some? && r.value.1 != [other]
  {
    var b1: Byte, b2: Byte := data % 256 % 128, data / 128 % 256;
    var command := DIGITAL_MESSAGE + port % 16;
    CommandByte(p, DIGITAL_MESSAGE, port % 16);
    var p1 := Parse(p, command).0;
    var p2 := Parse(p1, b1).0;
    assert !p2.sysex && Parse(p1, b1).1 == [];
    NotDataByte(p2, b2, other);
    ParseFirst(p1, b1, [b2]);
    ParseFirst(p, command, [b1, b2]);
    assert [b1] + [b2] == [b1, b2] && [command] + [b1, b2] == EncodeDigital(port, data);
    assert [] + ([] + ParseAll(p2, [b2]).value.1) == ParseAll(p2, [b2]).value.1;
  }

  /** sendDigitalPort comes through if and only if bit 14 of the port data is clear. */
  lemma DigitalExactly(p: Parser, port: Byte, data: int)
    requires WellFormed(p) && !p.sysex
    ensures var r := ParseAll(p, EncodeDigital(port, data));
      r.Some? && (r.value.1 == [Digital(port % 16, data % 16384)] <==> data / 16384 % 2 == 0)
  {
    Bit14(data);
    if data / 128 % 256 < 128 { OneMessage(p, DigitalMsg(port, data)); }
      else { BrokenDigital(p, port, data, Digital(port % 16, data % 16384)); }
  }

  lemma Bit14(data: int)
    ensures data / 128 % 256 < 128 <==> data / 16384 % 2 == 0
  {
    var q := data / 128;
    var k, r := q / 256, q % 256;
    assert data / 16384 == q / 128;
    assert q / 128 == 2 * k + r / 128;
  }

  function EncodeAll(messages: seq<Message>): seq<Byte>
    decreases |messages|
  {
    if messages == [] then [] else Encode(messages[0]) + EncodeAll(messages[1..])
  }

  function MeantAll(messages: seq<Message>): seq<Callback>
    decreases |messages|
  {
    if messages == [] then [] else [Meant(messages[0])] + MeantAll(messages[1..])
  }

  /** Any list of messages, from any state outside a sysex message: exactly their callbacks, in order. */
  lemma {:induction false} RoundTrip(p: Parser, messages: seq<Message>)
    requires WellFormed(p) && !p.sysex && forall m :: m in messages ==> Sendable(m)
    ensures var r := ParseAll(p, EncodeAll(messages)); r.Some? && !r.value.0.sysex && r.value.1 == MeantAll(messages)
    decreases |messages|
  {
    if messages != [] {
      OneMessage(p, messages[0]);
      var p1 := ParseAll(p, Encode(messages[0])).value.0;
      RoundTrip(p1, messages[1..]);
      ParseConcat(p, Encode(messages[0]), EncodeAll(messages[1..]));
    }
  }

  lemma NoCommand(p: Parser, b: Byte)
    requires WellFormed(p) && !p.sysex && p.waitForData == 0 && b < 128
    ensures Parse(p, b) == (p.(channel := b % 16), [])
  {
    assert b / 16 * 16 < 128;
  }

  /** Without a command, data bytes lead to nothing. */
  lemma {:induction false} StrayData(p: Parser, bytes: seq<Byte>)
    requires WellFormed(p) && !p.sysex && p.waitForData == 0 && forall b :: b in bytes ==> b < 128
    ensures var r := ParseAll(p, bytes); r.Some? && r.value.1 == [] && r.value.0 == p.(channel := r.value.0.channel)
    decreases |bytes|
  {
    if bytes != [] {
      hide Parse;
      assert bytes[0] in bytes && forall b :: b in bytes[1..] ==> b in bytes;
      NoCommand(p, bytes[0]);
      StrayData(p.(channel := bytes[0] % 16), bytes[1..]);
    }
  }

  /** After a reset nothing is left of a message half received before it. */
  lemma ResetForgets(p: Parser, bytes: seq<Byte>)
    requires WellFormed(p) && !p.sysex && forall b :: b in bytes ==> b < 128
    ensures var r := ParseAll(p, Encode(ResetRequest) + bytes); r.Some? && !r.value.0.sysex && r.value.1 == [Reset]
  {
    hide Parse, ParseAll, Initial;
    ResetByte(p);
    StrayData(Initial(), bytes);
    ParseFirst(p, 0xFF, bytes);
    assert [Reset] + [] == [Reset];
  }

  lemma ResetByte(p: Parser)
    requires WellFormed(p) && !p.sysex
    ensures Parse(p, 0xFF) == (Initial(), [Reset])
    ensures WellFormed(Initial()) && !Initial().sysex && Initial().waitForData == 0
  {
  }
}
