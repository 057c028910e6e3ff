/**
 What disturbances before a transmission do to the receiver: stretches of a wrong length put
 it back to waiting for a transmission, and the next one is received.
 */
module ManchesterNoise {
  import opened Basics
  import opened BitBytes
  import opened Manchester
  import opened ManchesterLink
  import opened ManchesterWave

  /** Whatever comes in, the interrupt never switches the receiver off, or on. */
  lemma {:induction false} StaysOn(st: Rx, samples: seq<bool>)
    ensures Run(st, samples).mode.Idle? <==> st.mode.Idle?
    decreases |samples|
  {
    if samples != [] {
      hide AddManBit;
      StaysOn(Tick(st, samples[0]), samples[1..]);
    }
  }

  // ---------- a stretch of a wrong length ----------

  /** The sample counter after n more samples. */
  function CountAfter(st: Rx, n: nat): nat { (st.count + 8 * n) % 256 }

  lemma {:induction false} CountedIs(count: nat, n: nat)
    requires count < 256
    ensures Counted(count, n) == (count + 8 * n) % 256
    decreases n
  {
    if n > 0 {
      CountedIs((count + 8) % 256, n - 1);
      Wraps(count + 8, 8 * (n - 1));
    }
  }

  lemma Wraps(a: nat, b: nat)
    ensures (a % 256 + b) % 256 == (a + b) % 256
  {
  }

  /** The longest stretch that may end now: two half bits of data, or a low start pulse after twenty regular changes. */
  function Longest(st: Rx): nat {
    if st.mode.Data? || (st.syncCount >= 20 && !st.lastSample) then MAX_LONG_COUNT else MAX_COUNT
  }

  /** The level changes after n more samples, too early or too late. */
  ghost predicate WrongLength(st: Rx, n: nat) { !(MIN_COUNT <= CountAfter(st, n + 1) <= Longest(st)) }

  /** The start pulse is overdue. */
  ghost predicate NoStart(st: Rx, n: nat) {
    st.mode.Sync? && st.syncCount >= 31 && !(!st.lastSample && CountAfter(st, n + 1) >= MIN_LONG_COUNT)
  }

  function Changed(st: Rx, n: nat): Rx { Run(st, Repeat(st.lastSample, n) + [!st.lastSample]) }

  lemma RunChange(st: Rx, n: nat)
    requires (st.mode.Sync? || st.mode.Data? || st.mode.Pre?) && st.count < 256
    ensures Changed(st, n) == Edge(st, CountAfter(st, n + 1))
  {
    hide OnEdge, Run, Counted;
    var st1 := st.(count := Counted(st.count, n));
    Hold(st, n);
    CountedIs(st.count, n);
    Wraps(st.count + 8 * n, 8);
    RunThrough(st, st1, Tick(st1, !st.lastSample), Repeat(st.lastSample, n), !st.lastSample, []);
    RunNone(Tick(st1, !st.lastSample));
    assert [!st.lastSample] + [] == [!st.lastSample];
    assert (st1.count + 8) % 256 == CountAfter(st, n + 1);
  }

  lemma RunNone(st: Rx)
    ensures Run(st, []) == st
  {
  }

  /** While locking on and while receiving, a level change puts the receiver back to waiting if and only
      if it comes too early or too late, or the start pulse is overdue. Then nothing else changes. */
  lemma Discards(st: Rx, n: nat)
    requires Safe(st) && (st.mode.Sync? || st.mode.Data?)
    ensures Changed(st, n).mode.Pre? <==> WrongLength(st, n) || NoStart(st, n)
    ensures WrongLength(st, n) ==>
      Changed(st, n) == st.(mode := Pre, count := CountAfter(st, n + 1), lastSample := !st.lastSample)
  {
    hide Decode, Xor;
    RunChange(st, n);
  }

  // ---------- a transmission after it ----------

  /** On a low line, waiting or with few changes counted. */
  ghost predicate Quiet(st: Rx, most: int) {
    Safe(st) && !st.lastSample && (st.mode.Pre? || (st.mode.Sync? && st.syncCount <= most))
  }

  /** In the first high stretch of a transmission, or put back to waiting by its beginning. */
  lemma FirstHigh(st: Rx, idle: nat)
    requires Safe(st) && !st.lastSample
    requires Quiet(st, 3) || ((st.mode.Sync? || st.mode.Data?) && WrongLength(st, idle))
    ensures var st' := Changed(st, idle);
      && st'.lastSample && st'.maxBytes == st.maxBytes && |st'.data| == |st.data|
      && (st'.mode.Pre? || (st'.mode.Sync? && st'.count == 0 && st'.syncCount <= 4))
      && st'.count < 256
  {
    hide Decode, Xor;
    RunChange(st, idle);
  }

  /** Waiting in a high stretch, the receiver misses it and the low one after it. */
  lemma SkipsTwo(st: Rx, wave: seq<Stretch>)
    requires st.mode.Pre? && st.lastSample && Sampled(wave) && |wave| > 2 && wave[0].level
    ensures wave[0].samples > 0 && wave[2].samples > 0 && wave[2].level && Sampled(wave[2..])
    ensures Run(st, Rest(wave)) ==
            Run(st.(count := 0, syncCount := 0, mode := Sync, lastSample := true), Rest(wave[2..]))
  {
    hide Run, Samples, Counted, Repeat;
    TailSampled(wave);
    TailSampled(wave[1..]);
    assert wave[1..][1..] == wave[2..];
    var high, low := wave[0].samples - 1, wave[1].samples - 1;
    var st1 := st.(count := Counted(st.count, high));
    var st2 := Tick(st1, false);
    Hold(st, high);
    SamplesStart(wave[1..]);
    RunThrough(st, st1, st2, Repeat(true, high), false, Rest(wave[1..]));
    SamplesStart(wave[2..]);
    RunIdle(st2, low, Rest(wave[2..]));
  }

  /** Put back to waiting by the beginning of a transmission, the receiver misses two half bits of it. */
  lemma MissedTwo(st: Rx, wave: seq<Stretch>, sent: seq<Byte>)
    requires st.mode.Pre? && st.lastSample && |sent| < 256
    requires Sampled(wave) && Halves(wave) == Frame(sent)
    ensures wave[0].samples > 0 && Answer(st, Run(st, Rest(wave)), sent)
  {
    hide Halves, Run, Frame, Samples, Answer;
    FrameShape(sent);
    assert Frame(sent)[0..] == Frame(sent);
    LockStretch(wave, Frame(sent), 0);
    TailSampled(wave);
    LockStretch(wave[1..], Frame(sent), 1);
    assert wave[1..][1..] == wave[2..];
    SkipsTwo(st, wave);
    var locking := st.(count := 0, syncCount := 0, mode := Sync, lastSample := true);
    LockPhase(locking, wave[2..], sent, 2);
    SameAnswer(locking, st, Run(st, Rest(wave)), sent);
  }

  lemma SameAnswer(a: Rx, b: Rx, after: Rx, sent: seq<Byte>)
    requires Answer(a, after, sent) && a.maxBytes == b.maxBytes
    ensures Answer(b, after, sent)
  {
  }

  lemma AfterFirstHigh(st: Rx, wave: seq<Stretch>, sent: seq<Byte>)
    requires st.lastSample && (st.mode.Pre? || (st.mode.Sync? && st.count == 0 && st.syncCount <= 4)) && |sent| < 256
    requires Sampled(wave) && Halves(wave) == Frame(sent)
    ensures wave[0].samples > 0 && Answer(st, Run(st, Rest(wave)), sent)
  {
    hide Halves, Run, Frame, Samples, Answer;
    if st.mode.Pre? {
      MissedTwo(st, wave, sent);
    } else {
      FrameShape(sent);
      assert Frame(sent)[0..] == Frame(sent);
      LockStretch(wave, Frame(sent), 0);
      LockPhase(st, wave, sent, 0);
    }
  }

  /** What Arrives says of a receiver in this state, after a transmission. */
  ghost predicate Arrived(before: Rx, after: Rx, sent: seq<Byte>)
    requires Safe(before)
  {
    && WritesBelow(before, after)
    && (after.mode.Msg? <==> before.maxBytes <= |sent|)
    && (after.mode.Msg? ==> after.data[..before.maxBytes] == sent[..before.maxBytes])
  }

  lemma AnswerArrived(st: Rx, samples: seq<bool>, sent: seq<Byte>)
    requires Safe(st) && Answer(st, Run(st, samples), sent)
    ensures Arrived(st, Run(st, samples), sent)
  {
    RunSafe(st, samples);
  }

  /** On a low line, and waiting, with at most three changes counted, or about to be put back to waiting. */
  ghost predicate Receptive(st: Rx, idle: nat) {
    Safe(st) && !st.lastSample && (Quiet(st, 3) || ((st.mode.Sync? || st.mode.Data?) && WrongLength(st, idle)))
  }

  /** A transmission is received from every such state, as it is from an undisturbed one. */
  lemma ArrivesDisturbed(st: Rx, idle: nat, sent: seq<Byte>, counts: seq<nat>)
    requires Receptive(st, idle) && |sent| < 256 && InWindows(Shape(sent), counts)
    ensures Arrived(st, Run(st, Repeat(false, idle) + Samples(Transmission(sent, counts))), sent)
  {
    hide Run, Shape, Samples, Halves, Frame, Answer, Arrived, WrongLength, Quiet;
    var wave := Transmission(sent, counts);
    ShapeOfFrame(sent);
    TimedSampled(Shape(sent), counts);
    TimedHalves(Shape(sent), counts);
    FirstHigh(st, idle);
    var st' := Changed(st, idle);
    AfterFirstHigh(st', wave, sent);
    FrameShape(sent);
    assert Frame(sent)[0..] == Frame(sent);
    LockStretch(wave, Frame(sent), 0);
    SamplesStart(wave);
    Assoc(Repeat(false, idle), [true], Rest(wave));
    RunConcat(st, Repeat(false, idle) + [true], Rest(wave));
    SameAnswer(st', st, Run(st', Rest(wave)), sent);
    AnswerArrived(st, Repeat(false, idle) + Samples(wave), sent);
  }

  // ---------- disturbances ----------

  /** Something before a transmission: the transmission is received as if it had not been. */
  lemma ReceivedAfter(st: Rx, noise: seq<bool>, idle: nat, sent: seq<Byte>, counts: seq<nat>)
    requires Safe(st) && Receptive(Run(st, noise), idle) && |sent| < 256 && InWindows(Shape(sent), counts)
    ensures Arrived(st, Run(st, noise + Repeat(false, idle) + Samples(Transmission(sent, counts))), sent)
  {
    hide Run, Shape, Samples, Receptive;
    var coming := Samples(Transmission(sent, counts));
    ArrivesDisturbed(Run(st, noise), idle, sent, counts);
    Assoc(noise, Repeat(false, idle), coming);
    RunConcat(st, noise, Repeat(false, idle) + coming);
    RunSafe(st, noise);
    RunSafe(st, noise + Repeat(false, idle) + coming);
  }

  /** A number of low samples, then one high sample or more. A low one follows. */
  datatype Pulse = Pulse(low: nat, high: nat)

  function PulseSamples(p: Pulse): seq<bool> { Repeat(false, p.low) + [true] + (Repeat(true, p.high) + [false]) }

  function Noise(pulses: seq<Pulse>): seq<bool>
    decreases |pulses|
  {
    if pulses == [] then [] else Noise(pulses[..|pulses| - 1]) + PulseSamples(pulses[|pulses| - 1])
  }

  /** In a high stretch, waiting or with few changes counted. */
  ghost predicate High(st: Rx, most: int) {
    st.lastSample && st.count < 256 && (st.mode.Pre? || (st.mode.Sync? && st.count == 0 && st.syncCount <= most))
  }

  lemma Rises(st: Rx, n: nat, most: int)
    requires Quiet(st, most) && -1 <= most <= 15
    ensures High(Changed(st, n), most + 1)
  {
    hide Decode, Xor;
    RunChange(st, n);
  }

  lemma Falls(st: Rx, n: nat, most: int)
    requires High(st, most) && most <= 16
    ensures var st' := Changed(st, n);
      && !st'.lastSample && (st'.mode.Pre? || (st'.mode.Sync? && st'.syncCount <= most + 1))
      && (st.mode.Pre? ==> st'.mode.Pre?)
  {
    hide Decode, Xor;
    RunChange(st, n);
  }

  /** A pulse of any length is two changes at most. */
  lemma OnePulse(st: Rx, p: Pulse, most: int)
    requires Quiet(st, most) && -1 <= most <= 15
    ensures Quiet(Run(st, PulseSamples(p)), most + 2)
  {
    hide Run, Decode, Xor;
    var st1 := Run(st, Repeat(false, p.low) + [true]);
    Rises(st, p.low, most);
    Falls(st1, p.high, most + 1);
    RunConcat(st, Repeat(false, p.low) + [true], Repeat(true, p.high) + [false]);
    RunSafe(st, PulseSamples(p));
  }

  lemma {:induction false} QuietAfter(st: Rx, pulses: seq<Pulse>)
    requires Quiet(st, -1) && |pulses| <= 2
    ensures Quiet(Run(st, Noise(pulses)), 2 * |pulses| - 1)
    decreases |pulses|
  {
    if pulses != [] {
      hide Run, PulseSamples, Quiet;
      var m := |pulses| - 1;
      QuietAfter(st, pulses[..m]);
      OnePulse(Run(st, Noise(pulses[..m])), pulses[m], 2 * m - 1);
      RunConcat(st, Noise(pulses[..m]), PulseSamples(pulses[m]));
    } else {
      RunNone(st);
    }
  }

  /** Up to two pulses of any length, with any pauses, do not keep a waiting receiver from the next transmission. */
  lemma ArrivesAfterPulses(st: Rx, pulses: seq<Pulse>, idle: nat, sent: seq<Byte>, counts: seq<nat>)
    requires Safe(st) && st.mode.Pre? && !st.lastSample && |pulses| <= 2
    requires |sent| < 256 && InWindows(Shape(sent), counts)
    ensures Arrived(st, Run(st, Noise(pulses) + Repeat(false, idle) + Samples(Transmission(sent, counts))), sent)
  {
    hide Run, Shape, Samples, InWindows, Noise, Arrived;
    QuietAfter(st, pulses);
    ReceivedAfter(st, Noise(pulses), idle, sent, counts);
  }

  /** The rest of a stretch, and what follows up to the first low sample. */
  function UntilLow(st: Rx, n: nat, high: nat): seq<bool> {
    if st.lastSample then Repeat(true, n) + [false] else Repeat(false, n) + [true] + (Repeat(true, high) + [false])
  }

  /** After a stretch of a wrong length, high or low, the receiver is waiting when the line is low again. */
  lemma WaitsAgain(st: Rx, n: nat, high: nat)
    requires Safe(st) && (st.mode.Sync? || st.mode.Data?) && WrongLength(st, n)
    ensures Quiet(Run(st, UntilLow(st, n, high)), -1)
  {
    hide Run, Decode, Xor, WrongLength;
    Discards(st, n);
    RunSafe(st, UntilLow(st, n, high));
    if !st.lastSample {
      Falls(Changed(st, n), high, -1);
      RunConcat(st, Repeat(false, n) + [true], Repeat(true, high) + [false]);
    }
  }

  /** A stretch of a wrong length while locking on or receiving loses that message, and not the next one. */
  lemma ArrivesAfterDiscard(st: Rx, n: nat, high: nat, idle: nat, sent: seq<Byte>, counts: seq<nat>)
    requires Safe(st) && (st.mode.Sync? || st.mode.Data?) && WrongLength(st, n)
    requires |sent| < 256 && InWindows(Shape(sent), counts)
    ensures var samples := UntilLow(st, n, high) + Repeat(false, idle) + Samples(Transmission(sent, counts));
      Arrived(st, Run(st, samples), sent)
  {
    hide Run, Shape, Samples, InWindows, UntilLow, WrongLength, Arrived;
    WaitsAgain(st, n, high);
    ReceivedAfter(st, UntilLow(st, n, high), idle, sent, counts);
  }
}
