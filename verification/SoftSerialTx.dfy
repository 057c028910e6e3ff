/**
 The transmitting half of AltSoftSerial: a compare interrupt that only ever schedules the
 next level change, fed by a ring of bytes.
 */
module SoftSerialTx {
  import opened Basics
  import opened BitBytes
  import opened ByteRing
  import opened SoftSerialRx
  import opened SoftSerialLine

  const TX_BUFFER_SIZE: nat := 68

  /** What the compare hardware does to the pin at a match. */
  datatype Action = Clear | Set | Normal

  datatype Tx = Tx(state: nat, byte: Byte, bit: bool, queue: seq<Byte>,
                   enabled: bool, compareA: int, action: Action)

  /** What the interrupt finds ahead: a level change, or the end of the stop bit's beginning. */
  datatype Ahead = Change(byte: Byte, bit: bool, state: nat, target: int) | NoChange(target: int)

  /** The interrupt's loop, from the given bit time on. */
  function Seek(ticks: nat, byte: Byte, bit: bool, state: nat, target: int): Ahead
    decreases 10 - state, ticks
  {
    if state >= 10 then NoChange(target)
    else
      var next := if state < 9 then byte[0] else true;
      var rest: Byte := byte[1..] + [false];
      if next != bit then Change(rest, next, state + 1, (target + ticks) % WRAP)
      else Seek(ticks, rest, bit, state + 1, (target + ticks) % WRAP)
  }

  /** The compare-A interrupt with the timer at `now`. */
  function CompareA(st: Tx, ticks: nat, now: int): Tx {
    match Seek(ticks, st.byte, st.bit, st.state, st.compareA)
    case Change(byte, bit, state, target) =>
      st.(byte := byte, bit := bit, state := state, compareA := target, action := if bit then Set else Clear)
    case NoChange(target) =>
      if st.queue == [] then
        if st.state <= 10 then st.(state := 11, compareA := (target + ticks) % WRAP)
        else st.(state := 0, action := Normal, enabled := false)
      else
        st.(queue := st.queue[1..], byte := st.queue[0], bit := false, state := 1, action := Clear,
            compareA := if st.state <= 10 then (target + ticks) % WRAP else (now + 16) % WRAP)
  }

  /** writeByte once there is room. */
  function Write(st: Tx, b: Byte, now: int): Tx {
    if st.state != 0 then st.(queue := Stored(st.queue, TX_BUFFER_SIZE, b))
    else st.(state := 1, byte := b, bit := false, enabled := true, action := Clear, compareA := (now + 16) % WRAP)
  }

  class Transmitter {
    const ticksPerBit: nat
    var txState: nat
    var txByte: Byte
    var txBit: bool
    const ring: Ring
    // the interrupt hardware
    var compareAEnabled: bool
    var compareA: int
    var matchAction: Action

    ghost predicate Valid()
      reads this, ring
    {
      ring.Valid() && ring.size == TX_BUFFER_SIZE
    }

    ghost function State(): Tx
      requires Valid()
      reads this, ring, ring.buffer
    {
      Tx(txState, txByte, txBit, ring.Contents(), compareAEnabled, compareA, matchAction)
    }

    constructor (ticksPerBit: nat)
      ensures Valid() && this.ticksPerBit == ticksPerBit && fresh(ring)
      ensures txState == 0 && ring.Contents() == [] && !compareAEnabled && matchAction == Normal
    {
      this.ticksPerBit := ticksPerBit;
      txState, txByte, txBit := 0, seq(8, _ => false), false;
      ring := new Ring(TX_BUFFER_SIZE);
      compareAEnabled, compareA, matchAction := false, 0, Normal;
    }

    /** The part of writeByte after its wait for room. Only writeByte moves the head, so the
        room that was seen is still there. */
    method WriteByte(b: Byte, now: int)
      requires Valid() && |ring.Contents()| < TX_BUFFER_SIZE - 1
      modifies this, ring, ring.buffer
      ensures Valid() && State() == Write(old(State()), b, now)
    {
      if txState != 0 {
        ring.Put(b);
      } else {
        txState := 1;
        txByte := b;
        txBit := false;
        compareAEnabled := true;
        matchAction := Clear;
        compareA := (now + 16) % WRAP;
      }
    }

    method CompareAInterrupt(now: int)
      requires Valid()
      modifies this, ring, ring.buffer
      ensures Valid() && State() == CompareA(old(State()), ticksPerBit, now)
    {
      var state, byte, target := txState, txByte, compareA;
      while state < 10
        invariant Valid() && State() == old(State())
        invariant state <= 10 || state == txState
        invariant Seek(ticksPerBit, byte, txBit, state, target) == Seek(ticksPerBit, txByte, txBit, txState, compareA)
        invariant txState <= 10 ==> state <= 10
      {
        target := (target + ticksPerBit) % WRAP;
        var bit := if state < 9 then byte[0] else true;
        byte := byte[1..] + [false];
        state := state + 1;
        if bit != txBit {
          matchAction := if bit then Set else Clear;
          compareA := target;
          txBit := bit;
          txByte := byte;
          txState := state;
          return;
        }
      }
      var next := ring.Take();
      match next
      case None =>
        if state == 10 {
          txState := 11;
          compareA := (target + ticksPerBit) % WRAP;
        } else {
          txState := 0;
          matchAction := Normal;
          compareAEnabled := false;
        }
      case Some(b) =>
        txByte := b;
        txBit := false;
        matchAction := Clear;
        if state == 10 {
          compareA := (target + ticksPerBit) % WRAP;
        } else {
          compareA := (now + 16) % WRAP;
        }
        txState := 1;
    }
  }
}
