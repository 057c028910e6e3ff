/**
 The receiving half of AltSoftSerial: an interrupt on captured level changes, which only
 knows 16-bit timestamps, and a timeout that ends a byte whose last bits are all equal.
 */
module SoftSerialRx {
  import opened Basics
  import opened BitBytes
  import opened ByteRing

  const RX_BUFFER_SIZE: nat := 80

  /** The limit 65536 / 10.5 that init puts on the bit time. */
  const MAX_COUNTS_PER_BIT: nat := 6241

  /** Shift right, the new bit on top. */
  function Shift(b: Byte, bit: bool): Byte { b[1..] + [bit] }

  /** The receiver's statics, and the capture and compare-B hardware they drive. `bit`
      stands for rx_bit: the next level change is expected to rise. */
  datatype Rx = Rx(state: nat, byte: Byte, bit: bool, target: int,
                   armed: bool, compareB: nat, rising: bool, buffer: seq<Byte>)

  function Complete(st: Rx, byte: Byte): Rx {
    st.(byte := byte, armed := false, buffer := Stored(st.buffer, RX_BUFFER_SIZE, byte), rising := false,
        bit := false, state := 0)
  }

  /** The capture loop: one bit for every sampling point that the timestamp has passed. */
  function CaptureLoop(st: Rx, ticks: nat, capture: nat, byte: Byte, target: int, state: nat): Rx
    requires state < 9
    decreases 9 - state
  {
    if (capture - target) % WRAP > 65535 - ticks then
      st.(byte := byte, target := target, state := state)
    else if state + 1 >= 9 then Complete(st, Shift(byte, st.bit))
    else CaptureLoop(st, ticks, capture, Shift(byte, st.bit), (target + ticks) % WRAP, state + 1)
  }

  /** The capture interrupt. */
  function Capture(st: Rx, ticks: nat, stop: nat, capture: nat): Rx
    requires st.state < 9
  {
    var toggled := st.(bit := !st.bit, rising := !st.bit);
    if st.state == 0 then
      if !st.bit then
        toggled.(compareB := (capture + stop) % WRAP, armed := true,
                 target := (capture + ticks + ticks / 2) % WRAP, state := 1)
      else toggled
    else CaptureLoop(toggled, ticks, capture, st.byte, st.target, st.state)
  }

  function Pad(byte: Byte, bit: bool, n: nat): Byte
    decreases n
  {
    if n == 0 then byte else Pad(Shift(byte, bit), bit, n - 1)
  }

  /** The compare-B interrupt: the missing bits are all at the present level. */
  function Timeout(st: Rx): Rx
    requires st.state <= 9
  {
    Complete(st, Pad(st.byte, !st.bit, 9 - st.state))
  }

  class Receiver {
    const ticksPerBit: nat
    const rxStopTicks: nat
    var rxState: nat
    var rxByte: Byte
    var rxBit: bool
    var rxTarget: int
    const ring: Ring
    // the interrupt hardware
    var compareBEnabled: bool
    var compareB: nat
    var captureRising: bool

    ghost predicate Valid()
      reads this, ring
    {
      ticksPerBit < MAX_COUNTS_PER_BIT && rxStopTicks == ticksPerBit * 37 / 4 &&
      ring.Valid() && ring.size == RX_BUFFER_SIZE && rxState < 9
    }

    ghost function State(): Rx
      requires Valid()
      reads this, ring, ring.buffer
    {
      Rx(rxState, rxByte, rxBit, rxTarget, compareBEnabled, compareB, captureRising, ring.Contents())
    }

    constructor (ticksPerBit: nat)
      requires ticksPerBit < MAX_COUNTS_PER_BIT
      ensures Valid() && this.ticksPerBit == ticksPerBit && fresh(ring)
      ensures rxState == 0 && !rxBit && !compareBEnabled && !captureRising && ring.Contents() == []
    {
      this.ticksPerBit := ticksPerBit;
      rxStopTicks := ticksPerBit * 37 / 4;
      rxState, rxByte, rxBit, rxTarget := 0, seq(8, _ => false), false, 0;
      ring := new Ring(RX_BUFFER_SIZE);
      compareBEnabled, compareB, captureRising := false, 0, false;
    }

    /** The common end of a byte. */
    method FinishByte(byte: Byte)
      requires Valid()
      modifies this`rxState, this`rxByte, this`rxBit, this`compareBEnabled, this`captureRising, ring, ring.buffer
      ensures Valid() && State() == Complete(old(State()), byte)
    {
      rxByte := byte;
      compareBEnabled := false;
      ring.Put(byte);
      captureRising := false;
      rxBit := false;
      rxState := 0;
    }

    method CaptureInterrupt(capture: nat)
      requires Valid()
      modifies this, ring, ring.buffer
      ensures Valid() && State() == Capture(old(State()), ticksPerBit, rxStopTicks, capture)
    {
      var bit := rxBit;
      if bit {
        captureRising := false;
        rxBit := false;
      } else {
        captureRising := true;
        rxBit := true;
      }
      if rxState == 0 {
        if !bit {
          compareB := (capture + rxStopTicks) % WRAP;
          compareBEnabled := true;
          rxTarget := (capture + ticksPerBit + ticksPerBit / 2) % WRAP;
          rxState := 1;
        }
      } else {
        SampleBits(capture);
      }
    }

    method SampleBits(capture: nat)
      requires Valid() && rxState > 0
      modifies this, ring, ring.buffer
      ensures Valid()
      ensures State() == CaptureLoop(old(State()), ticksPerBit, capture, old(rxByte), old(rxTarget), old(rxState))
    {
      ghost var st0 := State();
      var byte, target, state := rxByte, rxTarget, rxState;
      while true
        invariant Valid() && State() == st0 && 0 < state < 9
        invariant CaptureLoop(st0, ticksPerBit, capture, byte, target, state) ==
                  CaptureLoop(st0, ticksPerBit, capture, st0.byte, st0.target, st0.state)
        decreases 9 - state
      {
        var offset := (capture - target) % WRAP;
        if offset > 65535 - ticksPerBit { break; }
        byte := byte[1..] + [rxBit];
        target := (target + ticksPerBit) % WRAP;
        state := state + 1;
        if state >= 9 {
          FinishByte(byte);
          return;
        }
      }
      rxByte := byte;
      rxTarget := target;
      rxState := state;
    }

    method CompareBInterrupt()
      requires Valid()
      modifies this, ring, ring.buffer
      ensures Valid() && State() == Timeout(old(State()))
    {
      var byte, state, bit := rxByte, rxState, !rxBit;
      while state < 9
        invariant state <= 9
        invariant Pad(byte, bit, 9 - state) == Pad(old(rxByte), bit, 9 - old(rxState))
      {
        byte := byte[1..] + [bit];
        state := state + 1;
      }
      FinishByte(byte);
    }
  }
}
