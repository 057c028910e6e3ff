/**
 Three pulses before a transmission can be too many: taken for settling zeros, they make the
 receiver give up in the middle of it.
 */
module ManchesterOverdue {
  import opened Basics
  import opened BitBytes
  import opened Manchester
  import opened ManchesterLink
  import opened ManchesterWave
  import opened ManchesterNoise

  // ---------- too many changes counted ----------

  /** Six changes more counted than half bits have come. */
  ghost predicate Ahead(st: Rx, wave: seq<Stretch>, sent: seq<Byte>, p: nat) {
    Sampled(wave) && p <= 25 && p <= |Frame(sent)| && Halves(wave) == Frame(sent)[p..] &&
    st.mode.Sync? && st.count == 0 && st.lastSample == wave[0].level && st.syncCount == p + 6
  }

  lemma AheadStep(st: Rx, p: nat, samples: nat)
    requires st.mode.Sync? && st.count == 0 && p <= 25 && st.syncCount == p + 6 && st.lastSample == (p % 2 == 0)
    requires 5 <= samples <= 8
    ensures Edge(st, 8 * samples) ==
            st.(syncCount := p + 7, lastSample := !st.lastSample, mode := if p == 25 then Pre else Sync)
  {
  }

  /** It gives up at the edge before the start pulse. */
  lemma {:induction false} GivesUp(st: Rx, wave: seq<Stretch>, sent: seq<Byte>, p: nat)
      returns (st': Rx, rest: seq<Stretch>)
    requires Ahead(st, wave, sent, p)
    ensures wave[0].samples > 0 && Sampled(rest) && rest[0].samples > 0
    ensures Halves(rest) == Frame(sent)[26..] && |Frame(sent)| > 29
    ensures st' == st.(syncCount := 32, lastSample := true, mode := Pre)
    ensures Run(st, Rest(wave)) == Run(st', Rest(rest))
    decreases |wave|
  {
    hide Halves, Edge, Run, Samples, Frame;
    FrameShape(sent);
    LockStretch(wave, Frame(sent), p);
    AheadStep(st, p, wave[0].samples);
    Cross(st, wave);
    var next := Edge(st, 8 * wave[0].samples);
    if p == 25 {
      st', rest := next, wave[1..];
    } else {
      HalvesStart(wave[1..]);
      st', rest := GivesUp(next, wave[1..], sent, p + 1);
    }
  }

  // ---------- a transmission without data ----------

  /** One or two equal half bits, and then a different one, are a stretch. */
  lemma FirstStretch(wave: seq<Stretch>, n: nat)
    requires Sampled(wave) && 1 <= n <= 2 && n < |Halves(wave)| && Halves(wave)[n] != Halves(wave)[0]
    requires n == 2 ==> Halves(wave)[1] == Halves(wave)[0]
    ensures |wave| > 1 && wave[0].level == Halves(wave)[0] && wave[0].halves == n
    ensures Sampled(wave[1..]) && Halves(wave[1..]) == Halves(wave)[n..]
  {
    hide Halves;
    HalvesStart(wave);
    assert |wave| > 1;
    TailSampled(wave);
  }

  lemma OnlyStretch(wave: seq<Stretch>)
    requires Sampled(wave) && |Halves(wave)| == 1
    ensures |wave| == 1
  {
    hide Halves;
    HalvesStart(wave);
  }

  lemma EmptyHalves()
    ensures |Frame([])| > 29 && Frame([])[29..] == [true, true, false, true, false]
  {
    hide Frame, Stream;
    FrameShape([]);
    NoData();
    assert [true] + [true, false, true, false] == [true, true, false, true, false];
  }

  lemma NoData()
    ensures Stream([]) == [true, false, true, false]
  {
    hide Zeros;
    assert DataHalves([]) == [];
    TwoZeros();
    assert [] + Zeros(2) == Zeros(2);
  }

  lemma TwoZeros()
    ensures Zeros(2) == [true, false, true, false]
  {
  }

  /** After the start pulse: two high half bits, then low, high and low. */
  lemma EmptyStream(wave: seq<Stretch>)
    requires Sampled(wave) && |Frame([])| > 29 && Halves(wave) == Frame([])[29..]
    ensures |wave| == 4 && wave[0].level && wave[0].halves == 2 && wave[1].halves == wave[2].halves == 1
    ensures !wave[1].level && wave[2].level
  {
    hide Halves, Frame, Sampled;
    EmptyHalves();
    FirstStretch(wave, 2);
    var wave1 := wave[1..];
    assert Halves(wave1) == [false, true, false];
    FirstStretch(wave1, 1);
    var wave2 := wave1[1..];
    assert Halves(wave2) == [true, false];
    FirstStretch(wave2, 1);
    assert Halves(wave2[1..]) == [false];
    OnlyStretch(wave2[1..]);
  }

  /** Found locking on with nothing counted, this stream is no message. */
  lemma EmptyIgnored(st: Rx, wave: seq<Stretch>)
    requires st.mode.Sync? && st.count == 0 && st.syncCount == 0 && st.lastSample
    requires Sampled(wave) && |Frame([])| > 29 && Halves(wave) == Frame([])[29..]
    ensures wave[0].samples > 0 && !Run(st, Rest(wave)).mode.Msg?
  {
    hide Halves, Run, Frame, Samples, Edge, Counted;
    EmptyStream(wave);
    TailSampled(wave);
    TailSampled(wave[1..]);
    TailSampled(wave[2..]);
    assert wave[1..][1..] == wave[2..] && wave[2..][1..] == wave[3..];
    Cross(st, wave);
    var st1 := Edge(st, 8 * wave[0].samples);
    TooLong(st, 8 * wave[0].samples);
    SamplesStart(wave[2..]);
    RunIdle(st1, wave[1].samples - 1, Rest(wave[2..]));
    var st2 := st1.(count := 0, syncCount := 0, mode := Sync, lastSample := true);
    Cross(st2, wave[2..]);
    var st3 := Edge(st2, 8 * wave[2].samples);
    Counts(st2, 8 * wave[2].samples);
    LastStretch(wave[3..]);
    Hold(st3, wave[3].samples - 1);
  }

  lemma TooLong(st: Rx, c: nat)
    requires st.mode.Sync? && st.syncCount == 0 && st.lastSample && 72 <= c <= 128
    ensures Edge(st, c) == st.(count := c, mode := Pre, lastSample := false)
  {
  }

  lemma Counts(st: Rx, c: nat)
    requires st.mode.Sync? && st.syncCount == 0 && st.lastSample && 40 <= c <= 64
    ensures Edge(st, c) == st.(count := 0, syncCount := 1, lastSample := false)
  {
  }

  lemma LastStretch(wave: seq<Stretch>)
    requires |wave| == 1 && wave[0].samples > 0
    ensures Rest(wave) == Repeat(wave[0].level, wave[0].samples - 1)
  {
    assert Samples(wave[1..]) == [];
  }

  /** A transmission without data, begun with six changes counted before it. */
  lemma EmptyLost(st: Rx, wave: seq<Stretch>)
    requires st.mode.Sync? && st.count == 0 && st.syncCount == 6 && st.lastSample
    requires Sampled(wave) && Halves(wave) == Frame([])
    ensures wave[0].samples > 0 && !Run(st, Rest(wave)).mode.Msg?
  {
    hide Halves, Run, Frame, Samples;
    FrameShape([]);
    assert Frame([])[0..] == Frame([]);
    LockStretch(wave, Frame([]), 0);
    var st1, rest := GivesUp(st, wave, [], 0);
    LockStretch(rest, Frame([]), 26);
    TailSampled(rest);
    LockStretch(rest[1..], Frame([]), 27);
    assert rest[1..][1..] == rest[2..];
    SkipsTwo(st1, rest);
    EmptyIgnored(st1.(count := 0, syncCount := 0, mode := Sync, lastSample := true), rest[2..]);
  }

  // ---------- pulses ----------

  /** As long as a half bit; as short as a sample. */
  const REGULAR: Pulse := Pulse(5, 5)

  const GLITCH: Pulse := Pulse(0, 0)

  lemma PulseRuns(st: Rx, p: Pulse)
    requires Quiet(st, 15)
    ensures var st1 := Changed(st, p.low); st1.lastSample && Run(st, PulseSamples(p)) == Changed(st1, p.high)
  {
    hide Run;
    Rises(st, p.low, 15);
    RunConcat(st, Repeat(false, p.low) + [true], Repeat(true, p.high) + [false]);
  }

  /** A regular pulse is two changes more, or the first one. */
  lemma RegularPulse(st: Rx)
    requires Quiet(st, 3) && (st.mode.Sync? ==> st.count == 0)
    ensures Run(st, PulseSamples(REGULAR)) ==
            st.(mode := Sync, count := 0, syncCount := if st.mode.Pre? then 1 else st.syncCount + 2)
  {
    hide Run, Changed, PulseSamples;
    PulseRuns(st, REGULAR);
    RegularRise(st);
    RegularFall(Changed(st, 5));
  }

  lemma RegularRise(st: Rx)
    requires Quiet(st, 3) && (st.mode.Sync? ==> st.count == 0)
    ensures Changed(st, 5) ==
            st.(mode := Sync, count := 0, syncCount := if st.mode.Pre? then 0 else st.syncCount + 1, lastSample := true)
  {
    hide Run, Changed, DataEdge;
    RunChange(st, 5);
    if st.mode.Sync? { assert CountAfter(st, 6) == 48; }
  }

  lemma RegularFall(st: Rx)
    requires st.mode.Sync? && st.count == 0 && st.lastSample && st.syncCount <= 4
    ensures Changed(st, 5) == st.(syncCount := st.syncCount + 1, lastSample := false)
  {
    hide Run, Changed, DataEdge;
    RunChange(st, 5);
    assert CountAfter(st, 6) == 48;
  }

  lemma GlitchPulse(st: Rx)
    requires Quiet(st, -1)
    ensures var st' := Run(st, PulseSamples(GLITCH)); Quiet(st', -1) && st'.maxBytes == st.maxBytes
  {
    hide Run, Changed, PulseSamples, Safe;
    PulseRuns(st, GLITCH);
    GlitchRise(st);
    GlitchFall(Changed(st, 0));
    RunSafe(st, PulseSamples(GLITCH));
  }

  lemma GlitchRise(st: Rx)
    requires Quiet(st, -1)
    ensures Changed(st, 0) == st.(mode := Sync, count := 0, syncCount := 0, lastSample := true)
  {
    hide Run, Changed, DataEdge;
    RunChange(st, 0);
  }

  lemma GlitchFall(st: Rx)
    requires st.mode.Sync? && st.count == 0 && st.lastSample && st.syncCount == 0
    ensures Changed(st, 0) == st.(mode := Pre, count := 8, lastSample := false)
  {
    hide Run, Changed, DataEdge;
    RunChange(st, 0);
    assert CountAfter(st, 1) == 8;
  }

  lemma NoiseAppend(pulses: seq<Pulse>, p: Pulse)
    ensures Noise(pulses + [p]) == Noise(pulses) + PulseSamples(p)
  {
    assert (pulses + [p])[..|pulses|] == pulses;
  }

  function Glitches(n: nat): seq<Pulse> {
    if n == 0 then [] else Glitches(n - 1) + [GLITCH]
  }

  lemma NoNoise()
    ensures Noise([]) == []
  {
  }

  lemma {:induction false} GlitchesRun(st: Rx, n: nat)
    requires Quiet(st, -1)
    ensures |Glitches(n)| == n
    ensures var st' := Run(st, Noise(Glitches(n))); Quiet(st', -1) && st'.maxBytes == st.maxBytes
  {
    hide Run, Noise, PulseSamples, Quiet;
    if n == 0 {
      NoNoise();
      RunNone(st);
    } else {
      GlitchesRun(st, n - 1);
      NoiseAppend(Glitches(n - 1), GLITCH);
      RunConcat(st, Noise(Glitches(n - 1)), PulseSamples(GLITCH));
      GlitchPulse(Run(st, Noise(Glitches(n - 1))));
    }
  }

  /** And then three regular ones. */
  function Many(n: nat): seq<Pulse> { Glitches(n) + [REGULAR] + [REGULAR] + [REGULAR] }

  lemma PulsesRun(st: Rx, n: nat)
    requires Quiet(st, -1)
    ensures |Many(n)| == n + 3
    ensures var st' := Run(st, Noise(Many(n)));
      st'.mode.Sync? && st'.count == 0 && st'.syncCount == 5 && !st'.lastSample && st'.maxBytes == st.maxBytes
  {
    hide Run, Noise, PulseSamples;
    var g := Glitches(n);
    GlitchesRun(st, n);
    RegularAfter(st, g);
    RegularAfter(st, g + [REGULAR]);
    RegularAfter(st, g + [REGULAR] + [REGULAR]);
  }

  lemma RegularAfter(st: Rx, pulses: seq<Pulse>)
    requires var st1 := Run(st, Noise(pulses)); Quiet(st1, 3) && (st1.mode.Sync? ==> st1.count == 0)
    ensures var st1 := Run(st, Noise(pulses));
      Run(st, Noise(pulses + [REGULAR])) ==
      st1.(mode := Sync, count := 0, syncCount := if st1.mode.Pre? then 1 else st1.syncCount + 2)
    ensures Safe(Run(st, Noise(pulses + [REGULAR])))
  {
    hide Run, Noise, PulseSamples;
    NoiseAppend(pulses, REGULAR);
    RunConcat(st, Noise(pulses), PulseSamples(REGULAR));
    RegularPulse(Run(st, Noise(pulses)));
  }

  // ---------- how many pulses are too many ----------

  /** A waiting receiver gets this transmission after these pulses. */
  ghost predicate Gets(st: Rx, pulses: seq<Pulse>, idle: nat, sent: seq<Byte>, counts: seq<nat>) {
    Safe(st) && st.mode.Pre? && !st.lastSample && |sent| < 256 && InWindows(Shape(sent), counts) ==>
      Arrived(st, Run(st, Noise(pulses) + Repeat(false, idle) + Samples(Transmission(sent, counts))), sent)
  }

  ghost predicate AlwaysGets(k: nat) {
    forall st, pulses, idle, sent, counts :: |pulses| == k ==> Gets(st, pulses, idle, sent, counts)
  }

  /** Some receiver that does not. */
  function Waiting(): Rx { Rx(Pre, false, 0, 0, [], 0, 0, []) }

  lemma NotGot(k: nat, counts: seq<nat>)
    requires k >= 3 && InWindows(Shape([]), counts)
    ensures |Many(k - 3)| == k && !Gets(Waiting(), Many(k - 3), 5, [], counts)
  {
    hide Run, Noise, Shape, Halves, Frame, Samples, Many;
    var st, wave := Waiting(), Transmission([], counts);
    ShapeOfFrame([]);
    TimedSampled(Shape([]), counts);
    TimedHalves(Shape([]), counts);
    PulsesRun(st, k - 3);
    var st1 := Run(st, Noise(Many(k - 3)));
    SixthChange(st1);
    var st2 := Changed(st1, 5);
    EmptyLost(st2, wave);
    FrameShape([]);
    assert Frame([])[0..] == Frame([]);
    LockStretch(wave, Frame([]), 0);
    SamplesStart(wave);
    Assoc(Repeat(false, 5), [true], Rest(wave));
    RunConcat(st1, Repeat(false, 5) + [true], Rest(wave));
    Assoc(Noise(Many(k - 3)), Repeat(false, 5), Samples(wave));
    RunConcat(st, Noise(Many(k - 3)), Repeat(false, 5) + Samples(wave));
  }

  lemma SixthChange(st: Rx)
    requires st.mode.Sync? && st.count == 0 && st.syncCount == 5 && !st.lastSample
    ensures Changed(st, 5) == st.(syncCount := 6, lastSample := true)
  {
    hide Run, Changed, DataEdge;
    RunChange(st, 5);
    assert CountAfter(st, 6) == 48;
  }

  /** Whatever their lengths, two pulses are not too many, and three or more can be. */
  lemma ExactlyTwo(k: nat)
    ensures AlwaysGets(k) <==> k <= 2
  {
    hide Gets;
    if k <= 2 {
      forall st, pulses: seq<Pulse>, idle: nat, sent: seq<Byte>, counts: seq<nat> | |pulses| == k
        ensures Gets(st, pulses, idle, sent, counts)
      {
        TwoAreGot(st, pulses, idle, sent, counts);
      }
    } else {
      CanBeSampled([]);
      var counts :| InWindows(Shape([]), counts);
      NotGot(k, counts);
    }
  }

  lemma TwoAreGot(st: Rx, pulses: seq<Pulse>, idle: nat, sent: seq<Byte>, counts: seq<nat>)
    requires |pulses| <= 2
    ensures Gets(st, pulses, idle, sent, counts)
  {
    hide Run, Noise, Arrived, Safe, Shape, Samples;
    if Safe(st) && st.mode.Pre? && !st.lastSample && |sent| < 256 && InWindows(Shape(sent), counts) {
      ArrivesAfterPulses(st, pulses, idle, sent, counts);
    }
  }
}
