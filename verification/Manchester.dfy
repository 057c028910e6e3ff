/**
 The Manchester radio link: a bit transmitter that only knows how to hold a level for half
 a bit, and a receive interrupt that samples the line and measures runs of equal samples.
 Bytes and the receive shift register are their bits.
 */
module Manchester {
  import opened Basics
  import opened BitBytes

  const MIN_COUNT: nat := 33
  const MAX_COUNT: nat := 65
  const MIN_LONG_COUNT: nat := 66
  const MAX_LONG_COUNT: nat := 129

  /** 0b11001010 */
  const DECOUPLING_MASK: Byte := [false, true, false, true, false, false, true, true]

  function Xor(a: Byte, b: Byte): Byte { seq(8, k requires 0 <= k < 8 => a[k] != b[k]) }

  // ---------- what is on the air ----------

  /** A 1 is low then high, a 0 is high then low. */
  function Encode(bit: bool): seq<bool> { [!bit, bit] }

  /** The half-bit levels of some bits. */
  function BitsHalves(bits: seq<bool>): (h: seq<bool>)
    ensures |h| == 2 * |bits|
    ensures forall k :: 0 <= k < |bits| ==> h[2 * k] == !bits[k] && h[2 * k + 1] == bits[k]
  {
    if bits == [] then [] else BitsHalves(bits[..|bits| - 1]) + Encode(bits[|bits| - 1])
  }

  function DataHalves(data: seq<Byte>): (h: seq<bool>)
    ensures |h| == 16 * |data|
  {
    if data == [] then [] else DataHalves(data[..|data| - 1]) + BitsHalves(Xor(data[|data| - 1], DECOUPLING_MASK))
  }

  function Zeros(n: nat): (h: seq<bool>)
    ensures |h| == 2 * n
  {
    seq(2 * n, i => i % 2 == 0)
  }

  lemma OneMoreZero(n: nat)
    ensures Zeros(n) + Encode(false) == Zeros(n + 1)
  {
  }

  /** A whole transmission: 14 zeros to settle the receiver, a one to start, the data, two zeros to end. */
  function Frame(data: seq<Byte>): seq<bool> {
    Zeros(14) + Encode(true) + DataHalves(data) + Zeros(2)
  }

  class Transmitter {
    var level: bool
    /** The level held during each half-bit delay so far. */
    var held: seq<bool>

    constructor ()
      ensures level == false && held == []
    {
      level, held := false, [];
    }

    /** The half-bit levels so far, the one now on the line included. */
    ghost function Trace(): seq<bool>
      reads this
    {
      held + [level]
    }

    method Delay()
      modifies this`held
      ensures held == old(held) + [level]
    {
      held := held + [level];
    }

    method SendZero()
      modifies this
      ensures Trace() == old(Trace()) + Encode(false)
    {
      Delay();
      level := true;
      Delay();
      level := false;
    }

    method SendOne()
      modifies this
      ensures Trace() == old(Trace()) + Encode(true)
    {
      Delay();
      level := false;
      Delay();
      level := true;
    }

    method SendZeros(n: nat)
      modifies this
      ensures Trace() == old(Trace()) + Zeros(n)
    {
      for i := 0 to n
        invariant Trace() == old(Trace()) + Zeros(i)
      {
        SendZero();
        Assoc(old(Trace()), Zeros(i), Encode(false));
        OneMoreZero(i);
      }
    }

    method SendByte(d: Byte)
      modifies this
      ensures Trace() == old(Trace()) + BitsHalves(d)
    {
      for j := 0 to 8
        invariant Trace() == old(Trace()) + BitsHalves(d[..j])
      {
        if d[j] { SendOne(); } else { SendZero(); }
        assert d[..j + 1][..j] == d[..j];
        Assoc(old(Trace()), BitsHalves(d[..j]), Encode(d[j]));
      }
      assert d[..8] == d;
    }

    method SendData(data: seq<Byte>)
      modifies this
      ensures Trace() == old(Trace()) + DataHalves(data)
    {
      for i := 0 to |data|
        invariant Trace() == old(Trace()) + DataHalves(data[..i])
      {
        SendByte(Xor(data[i], DECOUPLING_MASK));
        assert data[..i + 1][..i] == data[..i];
        Assoc(old(Trace()), DataHalves(data[..i]), BitsHalves(Xor(data[i], DECOUPLING_MASK)));
      }
      assert data[..|data|] == data;
    }

    /** The levels held, and the one left on the line, are those of the frame. */
    method TransmitArray(data: seq<Byte>)
      requires |data| < 256
      modifies this
      ensures Trace() == old(Trace()) + Frame(data)
    {
      ghost var h := Trace();
      SendZeros(14);
      SendOne();
      Assoc(h, Zeros(14), Encode(true));
      SendData(data);
      Assoc(h, Zeros(14) + Encode(true), DataHalves(data));
      SendZeros(2);
      Assoc(h, Zeros(14) + Encode(true) + DataHalves(data), Zeros(2));
    }
  }

  // ---------- the receiver ----------

  datatype Mode = Pre | Sync | Data | Msg | Idle

  /** The receiver's statics. The 16-bit shift register and its fill count are kept as
      the half bits collected since the last complete byte, oldest first. */
  datatype Rx = Rx(mode: Mode, lastSample: bool, count: nat, syncCount: nat,
                   halves: seq<bool>, curByte: nat, maxBytes: nat, data: seq<Byte>)

  /** The byte that sixteen half bits stand for: the second of each pair. */
  function Decode(halves: seq<bool>): Byte
    requires |halves| == 16
  {
    seq(8, k requires 0 <= k < 8 => halves[2 * k + 1])
  }

  function AddManBit(st: Rx, bit: bool): Rx {
    var h := st.halves + [bit];
    if |h| == 16 then
      st.(halves := [], curByte := (st.curByte + 1) % 256,
          data := if st.curByte < |st.data| then st.data[st.curByte := Xor(Decode(h), DECOUPLING_MASK)] else st.data)
    else
      st.(halves := h)
  }

  /** A level change while locking on. */
  function SyncEdge(st: Rx): Rx {
    if (st.syncCount < 20 || st.lastSample) && (st.count < MIN_COUNT || st.count > MAX_COUNT) then
      st.(mode := Pre)
    else if !st.lastSample && (st.count < MIN_COUNT || st.count > MAX_LONG_COUNT) then
      st.(mode := Pre)
    else
      var st' := st.(syncCount := st.syncCount + 1, count := 0);
      if !st.lastSample && st'.syncCount >= 20 && st.count >= MIN_LONG_COUNT then
        st'.(mode := Data, halves := [], curByte := 0)
      else if st'.syncCount >= 32 then st'.(mode := Pre)
      else st'
  }

  /** After a double stretch its second half is still to be added. */
  function Halfway(st: Rx): Rx {
    if st.count >= MIN_LONG_COUNT then AddManBit(st, st.lastSample) else st
  }

  /** A level change, to `sample`, while receiving data. */
  function DataEdge(st: Rx, sample: bool): Rx {
    if st.count < MIN_COUNT || st.count > MAX_LONG_COUNT then st.(mode := Pre)
    else
      var st' := Halfway(st);
      if sample && st'.curByte >= st.maxBytes then st'.(mode := Msg)
      else AddManBit(st', sample).(count := 0)
  }

  /** A level change, to `sample`. */
  function OnEdge(st: Rx, sample: bool): Rx {
    match st.mode
    case Pre => if sample then st.(count := 0, syncCount := 0, mode := Sync) else st
    case Sync => SyncEdge(st)
    case Data => DataEdge(st, sample)
    case _ => st
  }

  /** One run of the interrupt with the line at `sample`. */
  function Tick(st: Rx, sample: bool): Rx {
    if st.mode.Msg? || st.mode.Idle? then st
    else
      var counted := st.(count := (st.count + 8) % 256);
      (if sample == st.lastSample then counted else OnEdge(counted, sample)).(lastSample := sample)
  }

  function Run(st: Rx, samples: seq<bool>): Rx
    decreases |samples|
  {
    if samples == [] then st else Run(Tick(st, samples[0]), samples[1..])
  }

  // ---------- every waveform: writes stay inside the buffer ----------

  /** What every sample keeps. After the last byte at most two more half bits have been
      collected when the line is low and none when it is high, so the rising edge that
      ends reception always comes before a further byte is complete. */
  ghost predicate Safe(st: Rx) {
    st.maxBytes < 256 && st.maxBytes <= |st.data| && st.count < 256 && |st.halves| < 16 &&
    (st.mode.Sync? ==> st.syncCount < 32) &&
    (st.mode.Data? ==>
      st.curByte <= st.maxBytes &&
      (st.curByte == st.maxBytes ==> |st.halves| <= if st.lastSample then 0 else 2))
  }

  /** Only the first maxBytes bytes of the buffer may differ. */
  ghost predicate WritesBelow(before: Rx, after: Rx) {
    after.maxBytes == before.maxBytes && |after.data| == |before.data| &&
    forall i :: before.maxBytes <= i < |before.data| ==> after.data[i] == before.data[i]
  }

  lemma DataEdgeSafe(st: Rx, sample: bool)
    requires Safe(st) && st.mode.Data? && sample != st.lastSample
    ensures Safe(DataEdge(st, sample).(lastSample := sample)) && WritesBelow(st, DataEdge(st, sample))
  {
    hide Decode, Xor;
  }

  lemma TickSafe(st: Rx, sample: bool)
    requires Safe(st)
    ensures Safe(Tick(st, sample)) && WritesBelow(st, Tick(st, sample))
  {
    hide AddManBit, Halfway, DataEdge;
    if st.mode.Data? && sample != st.lastSample {
      DataEdgeSafe(st.(count := (st.count + 8) % 256), sample);
    }
  }

  /** Whatever comes in, noise included, the interrupt never writes outside the buffer it was given. */
  lemma {:induction false} RunSafe(st: Rx, samples: seq<bool>)
    requires Safe(st)
    ensures Safe(Run(st, samples)) && WritesBelow(st, Run(st, samples))
    decreases |samples|
  {
    if samples != [] {
      TickSafe(st, samples[0]);
      RunSafe(Tick(st, samples[0]), samples[1..]);
    }
  }

  /** A 16-bit shift register, bit 15 first. */
  type Register = r: seq<bool> | |r| == 16 witness seq(16, _ => false)

  /** Shifting right by two once more: what was at 13 - 2i is the new last bit. */
  lemma ShiftTwo(whole: Register, m: Register, i: nat)
    requires i < 8 && m[2 * i..] == whole[..16 - 2 * i]
    ensures m[15] == Decode(whole)[7 - i]
    ensures ([false, false] + m[..14])[2 * i + 2..] == whole[..14 - 2 * i]
  {
    forall k | 2 * i <= k < 16 ensures m[k] == whole[k - 2 * i] {
      assert m[k] == m[2 * i..][k - 2 * i];
    }
    var shifted := [false, false] + m[..14];
    var low := shifted[2 * i + 2..];
    forall k | 0 <= k < 14 - 2 * i ensures low[k] == whole[k] {
      assert low[k] == m[2 * i + k];
    }
  }

  lemma ShiftIn(bits: Register, n: nat, bit: bool)
    requires n < 16
    ensures (bits[1..] + [bit])[16 - (n + 1)..] == bits[16 - n..] + [bit]
  {
  }

  class Receiver {
    var rxMode: Mode
    var rxLastSample: bool
    var rxCount: nat
    var rxSyncCount: nat
    var rxManBits: Register
    var rxNumMB: nat
    var rxCurByte: nat
    var rxMaxBytes: nat
    var rxData: array<Byte>

    ghost function State(): Rx
      requires rxNumMB <= 16
      reads this, rxData
    {
      Rx(rxMode, rxLastSample, rxCount, rxSyncCount, rxManBits[16 - rxNumMB..], rxCurByte, rxMaxBytes, rxData[..])
    }

    ghost predicate Valid()
      reads this, rxData
    {
      rxNumMB < 16 && Safe(State())
    }

    constructor (data: array<Byte>)
      requires data.Length == 2
      ensures Valid() && rxMode == Idle && rxData == data && !rxLastSample
    {
      rxMode, rxLastSample, rxCount, rxSyncCount := Idle, false, 0, 0;
      rxManBits, rxNumMB, rxCurByte, rxMaxBytes := seq(16, _ => false), 0, 0, 2;
      rxData := data;
    }

    /** May be called in any state of the receiver. */
    method BeginReceiveBytes(maxBytes: nat, data: array<Byte>)
      requires Valid() && maxBytes < 256 && maxBytes <= data.Length
      modifies this
      ensures Valid() && rxData == data
      ensures State() == old(State()).(maxBytes := maxBytes, data := data[..], mode := Pre)
    {
      rxMaxBytes := maxBytes;
      rxData := data;
      rxMode := Pre;
    }

    method StopReceive()
      requires Valid()
      modifies this`rxMode
      ensures Valid() && State() == old(State()).(mode := Idle)
    {
      rxMode := Idle;
    }

    method ReceiveComplete() returns (complete: bool)
      ensures complete == rxMode.Msg?
    {
      return rxMode == Msg;
    }

    /** Split the full register into its eight data bits. */
    method TakeByte() returns (newData: Byte)
      modifies this`rxManBits
      ensures newData == Decode(old(rxManBits))
    {
      var m := rxManBits;
      ghost var whole, all := m, Decode(m);
      newData := seq(8, _ => false);
      for i := 0 to 8
        invariant newData[..i] == all[8 - i..]
        invariant m[2 * i..] == whole[..16 - 2 * i]
      {
        ShiftTwo(whole, m, i);
        assert all[7 - i..] == [all[7 - i]] + all[8 - i..];
        assert ([m[15]] + newData[..7])[..i + 1] == [m[15]] + newData[..i];
        newData := [m[15]] + newData[..7];
        m := [false, false] + m[..14];
      }
      rxManBits := m;
    }

    method AddBit(bit: bool)
      requires rxNumMB < 16 && (rxNumMB + 1 == 16 ==> rxCurByte < rxData.Length)
      modifies this`rxManBits, this`rxNumMB, this`rxCurByte, rxData
      ensures rxNumMB < 16 && State() == AddManBit(old(State()), bit)
    {
      hide Decode, Xor;
      ghost var h := State().halves + [bit];
      ShiftIn(rxManBits, rxNumMB, bit);
      rxManBits := rxManBits[1..] + [bit];
      rxNumMB := rxNumMB + 1;
      if rxNumMB == 16 {
        assert rxManBits == h;
        StoreByte();
      }
    }

    method StoreByte()
      requires rxNumMB == 16 && rxCurByte < rxData.Length
      modifies this`rxManBits, this`rxNumMB, this`rxCurByte, rxData
      ensures rxNumMB == 0
      ensures State() == old(State()).(halves := [], curByte := (old(rxCurByte) + 1) % 256,
        data := old(rxData[..])[old(rxCurByte) := Xor(Decode(old(rxManBits)), DECOUPLING_MASK)])
    {
      var newData := TakeByte();
      rxData[rxCurByte] := Xor(newData, DECOUPLING_MASK);
      rxCurByte := (rxCurByte + 1) % 256;
      rxNumMB := 0;
    }

    /** The interrupt may add a half bit: there is room for the byte it could complete. */
    ghost predicate HasRoom()
      reads this
    {
      rxNumMB < 16 &&
      (rxMode == Data ==>
        && rxCurByte <= rxMaxBytes <= rxData.Length && rxMaxBytes < 256
        && (rxCurByte == rxMaxBytes ==> rxNumMB <= if rxLastSample then 0 else 2))
    }

    /** The timer interrupt, with the line at `sample`. */
    method Isr(sample: bool)
      requires Valid()
      modifies this`rxMode, this`rxLastSample, this`rxCount, this`rxSyncCount,
               this`rxManBits, this`rxNumMB, this`rxCurByte, rxData
      ensures Valid()
      ensures State() == Tick(old(State()), sample)
    {
      TickSafe(State(), sample);
      Sample(sample);
    }

    method Sample(sample: bool)
      requires HasRoom()
      modifies this`rxMode, this`rxLastSample, this`rxCount, this`rxSyncCount,
               this`rxManBits, this`rxNumMB, this`rxCurByte, rxData
      ensures rxNumMB < 16 && State() == Tick(old(State()), sample)
    {
      if rxMode.Msg? || rxMode.Idle? { return; }
      rxCount := (rxCount + 8) % 256;
      ghost var counted := State();
      assert counted == old(State()).(count := (old(rxCount) + 8) % 256);
      if sample != rxLastSample { Transition(sample); }
      ghost var after := State();
      assert after == if sample == counted.lastSample then counted else OnEdge(counted, sample);
      rxLastSample := sample;
      assert State() == after.(lastSample := sample);
    }

    method Transition(sample: bool)
      requires HasRoom() && sample != rxLastSample
      modifies this`rxMode, this`rxCount, this`rxSyncCount, this`rxManBits, this`rxNumMB, this`rxCurByte, rxData
      ensures rxNumMB < 16 && State() == OnEdge(old(State()), sample)
    {
      if rxMode == Pre {
        if sample {
          rxCount := 0;
          rxSyncCount := 0;
          rxMode := Sync;
        }
      } else if rxMode == Sync {
        OnSyncEdge();
      } else if rxMode == Data {
        OnDataEdge(sample);
      }
    }

    method OnSyncEdge()
      requires rxNumMB < 16
      modifies this`rxMode, this`rxCount, this`rxSyncCount, this`rxManBits, this`rxNumMB, this`rxCurByte
      ensures rxNumMB < 16 && State() == SyncEdge(old(State()))
    {
      if (rxSyncCount < 20 || rxLastSample) && (rxCount < MIN_COUNT || rxCount > MAX_COUNT) {
        rxMode := Pre;
      } else if !rxLastSample && (rxCount < MIN_COUNT || rxCount > MAX_LONG_COUNT) {
        rxMode := Pre;
      } else {
        rxSyncCount := rxSyncCount + 1;
        if !rxLastSample && rxSyncCount >= 20 && rxCount >= MIN_LONG_COUNT {
          rxMode := Data;
          rxManBits := seq(16, _ => false);
          rxNumMB := 0;
          rxCurByte := 0;
        } else if rxSyncCount >= 32 {
          rxMode := Pre;
        }
        rxCount := 0;
      }
    }

    method OnDataEdge(sample: bool)
      requires HasRoom() && rxMode == Data && sample != rxLastSample
      modifies this`rxMode, this`rxCount, this`rxManBits, this`rxNumMB, this`rxCurByte, rxData
      ensures rxNumMB < 16 && State() == DataEdge(old(State()), sample)
    {
      if rxCount < MIN_COUNT || rxCount > MAX_LONG_COUNT {
        rxMode := Pre;
      } else {
        if rxCount >= MIN_LONG_COUNT {
          AddBit(rxLastSample);
        }
        assert State() == Halfway(old(State()));
        if sample && rxCurByte >= rxMaxBytes {
          rxMode := Msg;
        } else {
          AddBit(sample);
          rxCount := 0;
        }
      }
    }
  }
}
