/**
 The Firmata stream: commands with the top bit set and seven-bit data, parsed one byte at
 a time into callbacks, and the encoders of the same library.
 */
module FirmataParser {
  import opened Basics
  import opened Bytes

  const MAX_DATA_BYTES: nat := 64
  const DIGITAL_MESSAGE: Byte := 0x90
  const REPORT_ANALOG: Byte := 0xC0
  const REPORT_DIGITAL: Byte := 0xD0
  const ANALOG_MESSAGE: Byte := 0xE0
  const START_SYSEX: Byte := 0xF0
  const SET_PIN_MODE: Byte := 0xF4
  const SET_DIGITAL_PIN_VALUE: Byte := 0xF5
  const END_SYSEX: Byte := 0xF7
  const REPORT_VERSION: Byte := 0xF9
  const SYSTEM_RESET: Byte := 0xFF
  const STRING_DATA: Byte := 0x71
  const REPORT_FIRMWARE: Byte := 0x79

  /** What the parser does for the sketch. */
  datatype Callback =
    | Analog(channel: Byte, value: nat)
    | Digital(port: Byte, value: nat)
    | PinMode(pin: Byte, mode: Byte)
    | PinValue(pin: Byte, level: Byte)
    | ReportAnalog(channel: Byte, on: Byte)
    | ReportDigital(port: Byte, on: Byte)
    | Text(chars: seq<Byte>)
    | Sysex(command: Byte, argv: seq<Byte>)
    | FirmwareReport
    | VersionReport
    | Reset

  datatype Parser = Parser(waitForData: nat, command: Byte, channel: Byte, stored: seq<Byte>,
                           sysex: bool, bytesRead: nat)

  ghost predicate WellFormed(p: Parser) {
    |p.stored| == MAX_DATA_BYTES && p.waitForData <= 2 && p.bytesRead <= MAX_DATA_BYTES
  }

  /** What the source can do inside its buffer: a sysex message is at most 64 bytes long, a string in it
      has at least one character, and only a request for the firmware version may be left over from
      before in an empty message. */
  ghost predicate CanTake(p: Parser, b: Byte)
    requires WellFormed(p)
  {
    p.sysex ==> if b == END_SYSEX then CanProcess(p) else p.bytesRead < MAX_DATA_BYTES
  }

  ghost predicate CanProcess(p: Parser)
    requires WellFormed(p)
  {
    if p.stored[0] == REPORT_FIRMWARE then true
    else if p.stored[0] == STRING_DATA then p.bytesRead >= 3
    else p.bytesRead >= 1
  }

  // ---------- sysex ----------

  /** A character from its seven low bits and the rest. */
  function Character(low: int, high: int): Byte { (low + high * 128) % 256 }

  /** A number from two data bytes. */
  function Number(low: nat, high: nat): nat { high * 128 + low }

  /** n characters, each from two bytes of seven bits after the command. */
  function Decoded(stored: seq<Byte>, n: nat): (chars: seq<Byte>)
    requires 2 * n < |stored|
    ensures |chars| == n
    decreases n
  {
    if n == 0 then [] else Decoded(stored, n - 1) + [Character(stored[2 * n - 1], stored[2 * n])]
  }

  /** The characters before the first zero. */
  function CString(s: seq<Byte>): seq<Byte>
    decreases |s|
  {
    if s == [] || s[0] == 0 then [] else [s[0]] + CString(s[1..])
  }

  /** The buffer after the string has been decoded into its front, and ended. */
  function StringBuffer(stored: seq<Byte>, n: nat): (s: seq<Byte>)
    requires |stored| == MAX_DATA_BYTES && 1 <= n < 32
    ensures |s| == MAX_DATA_BYTES
  {
    var s := Decoded(stored, n) + stored[n..];
    if s[n - 1] != 0 then s[n := 0] else s
  }

  function ProcessSysex(p: Parser): (Parser, seq<Callback>)
    requires WellFormed(p) && CanProcess(p)
  {
    if p.stored[0] == REPORT_FIRMWARE then (p, [FirmwareReport])
    else if p.stored[0] == STRING_DATA then
      var s := StringBuffer(p.stored, (p.bytesRead - 1) / 2);
      (p.(stored := s), [Text(CString(s))])
    else (p, [Sysex(p.stored[0], p.stored[1..p.bytesRead])])
  }

  // ---------- one byte ----------

  /** The callback of a complete message. */
  function Execute(command: Byte, channel: Byte, stored: seq<Byte>): seq<Callback>
    requires |stored| == MAX_DATA_BYTES
  {
    if command == ANALOG_MESSAGE then [Analog(channel, Number(stored[1], stored[0]))]
    else if command == DIGITAL_MESSAGE then [Digital(channel, Number(stored[1], stored[0]))]
    else if command == SET_PIN_MODE then [PinMode(stored[1], stored[0])]
    else if command == SET_DIGITAL_PIN_VALUE then [PinValue(stored[1], stored[0])]
    else if command == REPORT_ANALOG then [ReportAnalog(channel, stored[0])]
    else if command == REPORT_DIGITAL then [ReportDigital(channel, stored[0])]
    else []
  }

  /** systemReset */
  function Initial(): Parser { Parser(0, 0, 0, seq(MAX_DATA_BYTES, _ => 0), false, 0) }

  /** A byte that begins a message. */
  function Begin(p: Parser, b: Byte): (Parser, seq<Callback>) {
    var command := if b < 0xF0 then b / 16 * 16 else b;
    var p1 := if b < 0xF0 then p.(channel := b % 16) else p;
    if command == ANALOG_MESSAGE || command == DIGITAL_MESSAGE ||
       command == SET_PIN_MODE || command == SET_DIGITAL_PIN_VALUE
    then
      (p1.(waitForData := 2, command := command), [])
    else if command == REPORT_ANALOG || command == REPORT_DIGITAL then (p1.(waitForData := 1, command := command), [])
    else if command == START_SYSEX then (p1.(sysex := true, bytesRead := 0), [])
    else if command == SYSTEM_RESET then (Initial(), [Reset])
    else if command == REPORT_VERSION then (p1, [VersionReport])
    else (p1, [])
  }

  function Parse(p: Parser, b: Byte): (r: (Parser, seq<Callback>))
    requires WellFormed(p) && CanTake(p, b)
    ensures WellFormed(r.0)
  {
    if p.sysex then
      if b == END_SYSEX then ProcessSysex(p.(sysex := false))
      else (p.(stored := p.stored[p.bytesRead := b], bytesRead := p.bytesRead + 1), [])
    else if p.waitForData > 0 && b < 128 then
      var w := p.waitForData - 1;
      var p1 := p.(waitForData := w, stored := p.stored[w := b]);
      if w == 0 && p.command != 0 then (p1.(command := 0), Execute(p.command, p.channel, p1.stored)) else (p1, [])
    else Begin(p, b)
  }

  /** A stream of bytes; None if a sysex message in it is longer than the parser provides for, or empty. */
  ghost function ParseAll(p: Parser, bytes: seq<Byte>): (r: Option<(Parser, seq<Callback>)>)
    requires WellFormed(p)
    ensures r.Some? ==> WellFormed(r.value.0)
    decreases |bytes|
  {
    if bytes == [] then Some((p, []))
    else if !CanTake(p, bytes[0]) then None
    else
      var (p1, calls) := Parse(p, bytes[0]);
      match ParseAll(p1, bytes[1..])
      case None => None
      case Some(rest) => Some((rest.0, calls + rest.1))
  }

  // ---------- the class ----------

  class FirmataClass {
    var waitForData: nat
    var executeMultiByteCommand: Byte
    var multiByteChannel: Byte
    const storedInputData: array<Byte>
    var parsingSysex: bool
    var sysexBytesRead: nat

    ghost function State(): Parser
      reads this, storedInputData
    {
      Parser(waitForData, executeMultiByteCommand, multiByteChannel, storedInputData[..], parsingSysex, sysexBytesRead)
    }

    ghost predicate Valid()
      reads this, storedInputData
    {
      WellFormed(State())
    }

    constructor ()
      ensures Valid() && State() == Initial() && fresh(storedInputData)
    {
      waitForData, executeMultiByteCommand, multiByteChannel, parsingSysex, sysexBytesRead := 0, 0, 0, false, 0;
      storedInputData := new Byte[MAX_DATA_BYTES](_ => 0);
      new;
      assert storedInputData[..] == seq(MAX_DATA_BYTES, _ => 0);
    }

    method SystemReset()
      requires Valid()
      modifies this, storedInputData
      ensures Valid() && State() == Initial()
    {
      waitForData := 0;
      executeMultiByteCommand := 0;
      multiByteChannel := 0;
      for i := 0 to MAX_DATA_BYTES
        invariant forall k :: 0 <= k < i ==> storedInputData[k] == 0
        invariant waitForData == executeMultiByteCommand == multiByteChannel == 0
      {
        storedInputData[i] := 0;
      }
      parsingSysex := false;
      sysexBytesRead := 0;
      assert storedInputData[..] == seq(MAX_DATA_BYTES, _ => 0);
    }

    /** One character, from two bytes further on in the buffer. */
    method DecodeCharacter(i: nat, j: nat)
      requires storedInputData.Length == MAX_DATA_BYTES && j < i && i + 1 < MAX_DATA_BYTES
      modifies storedInputData
      ensures storedInputData[..] == var s := old(storedInputData[..]); s[j := Character(s[i], s[i + 1])]
    {
      storedInputData[j] := storedInputData[i];
      storedInputData[j] := Character(storedInputData[j], storedInputData[i + 1]);
    }

    /** The characters are decoded within the buffer: the write index never catches up with the read index. */
    method DecodeCharacters(bufferLength: nat)
      requires storedInputData.Length == MAX_DATA_BYTES && bufferLength < 32
      modifies storedInputData
      ensures storedInputData[..] == var s := old(storedInputData[..]); Decoded(s, bufferLength) + s[bufferLength..]
    {
      ghost var s := storedInputData[..];
      var i, j := 1, 0;
      while j < bufferLength
        invariant 0 <= j <= bufferLength && i == 2 * j + 1
        invariant storedInputData[..] == Decoded(s, j) + s[j..]
      {
        Unread(Decoded(s, j), s, j, i);
        Unread(Decoded(s, j), s, j, i + 1);
        DecodeNext(s, j);
        DecodeCharacter(i, j);
        i := i + 2;
        j := j + 1;
      }
    }

    /** Decodes a string and makes sure that it ends with a zero. */
    method DecodeString(bufferLength: nat)
      requires storedInputData.Length == MAX_DATA_BYTES && 1 <= bufferLength < 32
      modifies storedInputData
      ensures storedInputData[..] == StringBuffer(old(storedInputData[..]), bufferLength)
    {
      DecodeCharacters(bufferLength);
      if storedInputData[bufferLength - 1] != 0 {
        storedInputData[bufferLength] := 0;
      }
    }

    method ProcessSysexMessage() returns (calls: seq<Callback>)
      requires Valid() && CanProcess(State())
      modifies storedInputData
      ensures Valid() && (State(), calls) == ProcessSysex(old(State()))
    {
      if storedInputData[0] == REPORT_FIRMWARE {
        return [FirmwareReport];
      } else if storedInputData[0] == STRING_DATA {
        DecodeString((sysexBytesRead - 1) / 2);
        return [Text(CString(storedInputData[..]))];
      } else {
        return [Sysex(storedInputData[0], storedInputData[..][1..sysexBytesRead])];
      }
    }

    /** A byte that begins a message. */
    method BeginMessage(inputData: Byte) returns (calls: seq<Callback>)
      requires Valid()
      modifies this, storedInputData
      ensures Valid() && (State(), calls) == Begin(old(State()), inputData)
    {
      var command: Byte;
      if inputData < 0xF0 {
        command := inputData / 16 * 16;
        multiByteChannel := inputData % 16;
      } else {
        command := inputData;
      }
      if command == ANALOG_MESSAGE || command == DIGITAL_MESSAGE ||
         command == SET_PIN_MODE || command == SET_DIGITAL_PIN_VALUE {
        waitForData := 2;
        executeMultiByteCommand := command;
      } else if command == REPORT_ANALOG || command == REPORT_DIGITAL {
        waitForData := 1;
        executeMultiByteCommand := command;
      } else if command == START_SYSEX {
        parsingSysex := true;
        sysexBytesRead := 0;
      } else if command == SYSTEM_RESET {
        SystemReset();
        return [Reset];
      } else if command == REPORT_VERSION {
        return [VersionReport];
      }
      return [];
    }

    method ParseByte(inputData: Byte) returns (calls: seq<Callback>)
      requires Valid() && CanTake(State(), inputData)
      modifies this, storedInputData
      ensures Valid() && (State(), calls) == Parse(old(State()), inputData)
    {
      if parsingSysex {
        if inputData == END_SYSEX {
          parsingSysex := false;
          calls := ProcessSysexMessage();
        } else {
          storedInputData[sysexBytesRead] := inputData;
          sysexBytesRead := sysexBytesRead + 1;
          return [];
        }
      } else if waitForData > 0 && inputData < 128 {
        waitForData := waitForData - 1;
        storedInputData[waitForData] := inputData;
        calls := [];
        if waitForData == 0 && executeMultiByteCommand != 0 {
          calls := Execute(executeMultiByteCommand, multiByteChannel, storedInputData[..]);
          executeMultiByteCommand := 0;
        }
      } else {
        calls := BeginMessage(inputData);
      }
    }
  }

  /** What has not been decoded is still in its place. */
  lemma Unread(d: seq<Byte>, s: seq<Byte>, j: nat, i: nat)
    requires |d| == j <= i < |s|
    ensures (d + s[j..])[i] == s[i]
  {
  }

  lemma DecodeNext(s: seq<Byte>, j: nat)
    requires 2 * (j + 1) < |s|
    ensures (Decoded(s, j) + s[j..])[j := Character(s[2 * j + 1], s[2 * j + 2])] == Decoded(s, j + 1) + s[j + 1..]
  {
    hide Character;
    PutNext(Decoded(s, j), s, Character(s[2 * j + 1], s[2 * j + 2]));
  }

  // ---------- the encoders ----------

  /** sendAnalog of a pin and a 16-bit value. */
  function EncodeAnalog(pin: Byte, value: int): seq<Byte> { [ANALOG_MESSAGE + pin % 16, value % 128,
      value / 128 % 128] }

  /** sendDigitalPort: the last byte is not cut to seven bits. */
  function EncodeDigital(port: Byte, data: int): seq<Byte> { [DIGITAL_MESSAGE + port % 16, data % 256 % 128,
      data / 128 % 256] }

  /** Two bytes of seven bits for every byte. */
  function Pairs(text: seq<Byte>): (bytes: seq<Byte>)
    ensures |bytes| == 2 * |text|
    decreases |text|
  {
    if text == [] then [] else [text[0] % 128, text[0] / 128 % 128] + Pairs(text[1..])
  }

  /** sendString */
  function EncodeString(text: seq<Byte>): seq<Byte> { [START_SYSEX, STRING_DATA] + Pairs(text) + [END_SYSEX] }

  class Sender {
    /** What has been written to the stream. */
    var stream: seq<Byte>

    constructor ()
      ensures stream == []
    {
      stream := [];
    }

    method SendValueAsTwo7bitBytes(value: int)
      modifies this
      ensures stream == old(stream) + [value % 128, value / 128 % 128]
    {
      stream := stream + [value % 128];
      stream := stream + [value / 128 % 128];
    }

    method SendAnalog(pin: Byte, value: int)
      modifies this
      ensures stream == old(stream) + EncodeAnalog(pin, value)
    {
      stream := stream + [ANALOG_MESSAGE + pin % 16];
      SendValueAsTwo7bitBytes(value);
    }

    method SendDigitalPort(portNumber: Byte, portData: int)
      modifies this
      ensures stream == old(stream) + EncodeDigital(portNumber, portData)
    {
      stream := stream + [DIGITAL_MESSAGE + portNumber % 16];
      stream := stream + [portData % 256 % 128];
      stream := stream + [portData / 128 % 256];
    }

    method SendSysex(command: Byte, bytev: seq<Byte>)
      requires |bytev| < 256
      modifies this
      ensures stream == old(stream) + [START_SYSEX, command] + Pairs(bytev) + [END_SYSEX]
    {
      stream := stream + [START_SYSEX];
      stream := stream + [command];
      ghost var head := stream;
      for i := 0 to |bytev|
        invariant stream == head + Pairs(bytev[..i])
      {
        PairsAppend(bytev[..i], bytev[i]);
        assert bytev[..i + 1] == bytev[..i] + [bytev[i]];
        SendValueAsTwo7bitBytes(bytev[i]);
      }
      assert bytev[..|bytev|] == bytev;
      stream := stream + [END_SYSEX];
    }

    method SendString(text: seq<Byte>)
      requires |text| < 256
      modifies this
      ensures stream == old(stream) + EncodeString(text)
    {
      SendSysex(STRING_DATA, text);
    }
  }

  lemma {:induction false} PairsAppend(text: seq<Byte>, b: Byte)
    ensures Pairs(text + [b]) == Pairs(text) + [b % 128, b / 128 % 128]
    decreases |text|
  {
    if text == [] {
      assert ([] + [b])[1..] == [];
    } else {
      PairsAppend(text[1..], b);
      assert (text + [b])[1..] == text[1..] + [b];
    }
  }
}
