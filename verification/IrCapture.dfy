/**
 The capture interrupt of IRremote: every 50 microseconds one sample of the sensor, the
 lengths of the alternating runs of samples into a buffer. A sample is true for a mark.
 */
module IrCapture {
  import opened Basics

  const RAWBUF: nat := 100
  const GAP_TICKS: nat := 100

  /** The timer is an unsigned int of 16 bits. */
  type Word = n: nat | n < WRAP

  function Ticked(timer: Word): Word { if timer + 1 == WRAP then 0 else timer + 1 }

  /** The last run one sample longer, or a new run. */
  function Grown(runs: seq<nat>, same: bool): seq<nat>
    requires runs != []
  {
    if same then runs[..|runs| - 1] + [runs[|runs| - 1] + 1] else runs + [1]
  }

  /** The lengths of the runs of equal samples. */
  function Runs(samples: seq<bool>): (r: seq<nat>)
    ensures r == [] <==> samples == []
    decreases |samples|
  {
    var n := |samples| - 1;
    if n < 0 then [] else if n == 0 then [1] else Grown(Runs(samples[..n]), samples[n] == samples[n - 1])
  }

  /** n equal samples. */
  function Repeat(level: bool, n: nat): (s: seq<bool>)
    ensures |s| == n
    decreases n, level
  {
    if n == 0 then [] else Repeat(level, n - 1) + [level]
  }

  /** The level of run i. */
  predicate LevelOf(first: bool, i: nat) { if i % 2 == 0 then first else !first }

  /** The samples that alternating runs stand for, the first run at the given level. */
  function Unroll(runs: seq<nat>, first: bool): seq<bool>
    decreases |runs|, first
  {
    var m := |runs| - 1;
    if m < 0 then [] else Unroll(runs[..m], first) + Repeat(LevelOf(first, m), runs[m])
  }

  lemma UnrollAppend(runs: seq<nat>, n: nat, first: bool)
    ensures Unroll(runs + [n], first) == Unroll(runs, first) + Repeat(LevelOf(first, |runs|), n)
  {
    assert (runs + [n])[..|runs|] == runs;
  }

  lemma UnrollGrown(runs: seq<nat>, same: bool, first: bool)
    requires runs != []
    ensures Unroll(Grown(runs, same), first) == Unroll(runs, first) + [LevelOf(first, |Grown(runs, same)| - 1)]
  {
    if same {
      var m := |runs| - 1;
      var level := LevelOf(first, m);
      UnrollAppend(runs[..m], runs[m] + 1, first);
      Assoc(Unroll(runs[..m], first), Repeat(level, runs[m]), [level]);
    } else {
      UnrollAppend(runs, 1, first);
      assert Repeat(LevelOf(first, |runs|), 1) == Repeat(LevelOf(first, |runs|), 0) + [LevelOf(first, |runs|)];
    }
  }

  lemma LevelFlips(first: bool, i: nat)
    ensures LevelOf(first, i + 1) == !LevelOf(first, i)
  {
  }

  lemma UnrollOne(first: bool)
    ensures Unroll([1], first) == [first]
  {
    UnrollAppend([], 1, first);
    assert [] + [1] == [1];
    assert Repeat(first, 1) == Repeat(first, 0) + [first];
  }

  ghost predicate Describe(runs: seq<nat>, samples: seq<bool>)
    requires samples != [] && runs != []
  {
    Unroll(runs, samples[0]) == samples && samples[|samples| - 1] == LevelOf(samples[0], |runs| - 1)
  }

  lemma OneMore(runs: seq<nat>, samples: seq<bool>, x: bool)
    requires samples != [] && runs != [] && Describe(runs, samples)
    ensures Describe(Grown(runs, x == samples[|samples| - 1]), samples + [x])
  {
    hide Unroll;
    UnrollGrown(runs, x == samples[|samples| - 1], samples[0]);
    LevelFlips(samples[0], |runs| - 1);
  }

  lemma RunsAppend(samples: seq<bool>, mark: bool)
    requires samples != []
    ensures Runs(samples + [mark]) == Grown(Runs(samples), mark == samples[|samples| - 1])
  {
    assert (samples + [mark])[..|samples|] == samples;
  }

  lemma {:induction false} RunsDescribe(front: seq<bool>, x: bool)
    ensures Describe(Runs(front + [x]), front + [x])
    decreases |front|
  {
    var n := |front| - 1;
    if n < 0 {
      assert front + [x] == [x];
      UnrollOne(x);
    } else {
      RunsDescribe(front[..n], front[n]);
      FrontLast(front);
      OneMore(Runs(front), front, x);
      RunsAppend(front, x);
    }
  }

  /** The runs say exactly which samples there were. */
  lemma UnrollRuns(samples: seq<bool>)
    requires samples != []
    ensures Unroll(Runs(samples), samples[0]) == samples
    ensures samples[|samples| - 1] == LevelOf(samples[0], |Runs(samples)| - 1)
  {
    RunsDescribe(samples[..|samples| - 1], samples[|samples| - 1]);
    FrontLast(samples);
  }

  // ---------- the interrupt ----------

  datatype RcvState = Idle | Mark | Space | Stop

  /** `raw` stands for the first rawlen entries of rawbuf. */
  datatype Params = Params(rcvstate: RcvState, timer: Word, raw: seq<Word>)

  /** One interrupt. */
  function Sample(p: Params, mark: bool): Params {
    var timer := Ticked(p.timer);
    if |p.raw| >= RAWBUF then Params(Stop, if mark then 0 else timer, p.raw)
    else
      match p.rcvstate
      case Idle =>
        if !mark then p.(timer := timer)
        else if timer < GAP_TICKS then p.(timer := 0)
        else Params(Mark, 0, [timer])
      case Mark => if mark then p.(timer := timer) else Params(Space, 0, p.raw + [timer])
      case Space =>
        if mark then Params(Mark, 0, p.raw + [timer])
        else p.(timer := timer, rcvstate := if timer > GAP_TICKS then Stop else Space)
      case Stop => p.(timer := if mark then 0 else timer)
  }

  class Receiver {
    var rcvstate: RcvState
    var timer: Word
    const rawbuf: array<Word>
    var rawlen: nat

    ghost predicate Valid()
      reads this
    {
      rawbuf.Length == RAWBUF && rawlen <= RAWBUF
    }

    ghost function State(): Params
      requires Valid()
      reads this, rawbuf
    {
      Params(rcvstate, timer, rawbuf[..rawlen])
    }

    constructor ()
      ensures Valid() && fresh(rawbuf) && rcvstate == Idle && State().raw == []
    {
      rcvstate, timer, rawlen := Idle, 0, 0;
      rawbuf := new Word[RAWBUF](_ => 0);
    }

    /** rawbuf[rawlen++] = timer; timer = 0 */
    method Record()
      requires Valid() && rawlen < RAWBUF
      modifies this`rawlen, this`timer, rawbuf
      ensures Valid() && State().raw == old(State().raw) + [old(timer)] && timer == 0
    {
      rawbuf[rawlen] := timer;
      rawlen := rawlen + 1;
      timer := 0;
    }

    method TimerInterrupt(mark: bool)
      requires Valid()
      modifies this, rawbuf
      ensures Valid() && State() == Sample(old(State()), mark)
    {
      timer := Ticked(timer);
      if rawlen >= RAWBUF {
        rcvstate := Stop;
      }
      match rcvstate
      case Idle =>
        if mark {
          if timer < GAP_TICKS {
            timer := 0;
          } else {
            rawlen := 0;
            Record();
            rcvstate := Mark;
          }
        }
      case Mark =>
        if !mark {
          Record();
          rcvstate := Space;
        }
      case Space =>
        if mark {
          Record();
          rcvstate := Mark;
        } else if timer > GAP_TICKS {
          rcvstate := Stop;
        }
      case Stop =>
        if mark { timer := 0; }
    }

    method Resume()
      requires Valid()
      modifies this
      ensures Valid() && State() == Params(Idle, old(timer), []) && Resumed(State())
    {
      rcvstate := Idle;
      rawlen := 0;
    }
  }

  // ---------- what the buffer holds ----------

  /** The samples since recording began; recording ends when the interrupt stops. */
  function Since(p: Params, since: seq<bool>, mark: bool): seq<bool> {
    if |p.raw| >= RAWBUF then since
    else
      match p.rcvstate
      case Idle => if Sample(p, mark).rcvstate.Mark? then [mark] else []
      case Mark => since + [mark]
      case Space => since + [mark]
      case Stop => since
  }

  /** The recorded entries are the lengths of the first runs, up to the width of the timer. */
  ghost predicate Holds(raw: seq<Word>, runs: seq<nat>) {
    1 <= |raw| <= |runs| && forall i :: 1 <= i < |raw| ==> raw[i] == runs[i - 1] % WRAP
  }

  /** The buffer against the runs of the samples since recording began, the last sample given. */
  ghost predicate Matches(p: Params, runs: seq<nat>, last: bool) {
    |p.raw| <= RAWBUF &&
    match p.rcvstate
    case Idle => p.raw == []
    case Stop => Holds(p.raw, runs)
    case _ =>
      Holds(p.raw, runs) && |p.raw| == |runs| && p.rcvstate.Mark? == last && p.timer == (runs[|runs| - 1] - 1) % WRAP
  }

  /** The buffer against the samples since recording began, a mark the first of them. */
  ghost predicate Tracked(p: Params, since: seq<bool>) {
    if p.rcvstate.Idle? then p.raw == [] else since != [] && since[0] && Matches(p, Runs(since), since[|since| - 1])
  }

  ghost predicate Positive(runs: seq<nat>) {
    forall i :: 0 <= i < |runs| ==> runs[i] >= 1
  }

  lemma GrownPositive(runs: seq<nat>, same: bool)
    requires runs != [] && Positive(runs)
    ensures Positive(Grown(runs, same))
  {
  }

  lemma {:induction false} RunsPositive(samples: seq<bool>)
    ensures Positive(Runs(samples))
    decreases |samples|
  {
    var n := |samples| - 1;
    if n > 0 {
      RunsPositive(samples[..n]);
      GrownPositive(Runs(samples[..n]), samples[n] == samples[n - 1]);
    }
  }

  lemma TimerAdvances(n: int)
    ensures Ticked((n - 1) % WRAP) == n % WRAP
  {
  }

  lemma GrownHolds(raw: seq<Word>, runs: seq<nat>)
    requires Holds(raw, runs) && |raw| == |runs|
    ensures Holds(raw, Grown(runs, true)) && Holds(raw + [runs[|runs| - 1] % WRAP], Grown(runs, false))
  {
  }

  /** In the middle of a run the timer counts; at its end the run is recorded. */
  lemma RecordingMatches(p: Params, runs: seq<nat>, last: bool, mark: bool)
    requires Matches(p, runs, last) && |p.raw| < RAWBUF && (p.rcvstate.Mark? || p.rcvstate.Space?)
    ensures Matches(Sample(p, mark), Grown(runs, mark == last), mark)
  {
    TimerAdvances(runs[|runs| - 1]);
    GrownHolds(p.raw, runs);
    if mark == last {
      assert Sample(p, mark).raw == p.raw;
      assert Grown(runs, true)[|runs| - 1] == runs[|runs| - 1] + 1;
    } else {
      assert Sample(p, mark).raw == p.raw + [Ticked(p.timer)];
      assert Grown(runs, false)[|runs|] == 1;
    }
  }

  /** Every sample keeps buffer and history together, noise included. */
  lemma SampleTracks(p: Params, since: seq<bool>, mark: bool)
    requires Tracked(p, since)
    ensures Tracked(Sample(p, mark), Since(p, since, mark))
  {
    if |p.raw| < RAWBUF && (p.rcvstate.Mark? || p.rcvstate.Space?) {
      hide Matches, Runs, Grown;
      RunsAppend(since, mark);
      RecordingMatches(p, Runs(since), since[|since| - 1], mark);
    } else {
      hide Runs;
      IdleOrStopTracks(p, since, mark);
    }
  }

  lemma IdleOrStopTracks(p: Params, since: seq<bool>, mark: bool)
    requires Tracked(p, since) && (|p.raw| >= RAWBUF || p.rcvstate.Idle? || p.rcvstate.Stop?)
    ensures Tracked(Sample(p, mark), Since(p, since, mark))
  {
    assert Runs([mark]) == [1];
  }

  /** The interrupts of a sequence of samples. */
  function SampleAll(p: Params, samples: seq<bool>): Params
    decreases |samples|
  {
    if samples == [] then p else Sample(SampleAll(p, samples[..|samples| - 1]), samples[|samples| - 1])
  }

  /** As resume leaves the receiver: nothing recorded, the timer anywhere. */
  predicate Resumed(p: Params) { p.rcvstate.Idle? && p.raw == [] }

  /** The samples since recording began, after a whole waveform. */
  function SinceAll(p: Params, since: seq<bool>, samples: seq<bool>): seq<bool>
    decreases |samples|
  {
    if samples == [] then since
    else
      var front := samples[..|samples| - 1];
      Since(SampleAll(p, front), SinceAll(p, since, front), samples[|samples| - 1])
  }

  lemma {:induction false} StaysTracked(p: Params, since: seq<bool>, samples: seq<bool>)
    requires Tracked(p, since)
    ensures Tracked(SampleAll(p, samples), SinceAll(p, since, samples))
    decreases |samples|
  {
    if samples != [] {
      var front := samples[..|samples| - 1];
      StaysTracked(p, since, front);
      SampleTracks(SampleAll(p, front), SinceAll(p, since, front), samples[|samples| - 1]);
    }
  }

  /** Over any waveform from resume on the buffer holds the runs seen since recording began. */
  lemma WaveformTracked(p: Params, samples: seq<bool>)
    requires Resumed(p)
    ensures Tracked(SampleAll(p, samples), SinceAll(p, [], samples)) && |SampleAll(p, samples).raw| <= RAWBUF
  {
    StaysTracked(p, [], samples);
  }

  function Sum(s: seq<nat>): nat
    decreases |s|
  {
    if s == [] then 0 else Sum(s[..|s| - 1]) + s[|s| - 1]
  }

  lemma SumAppend(s: seq<nat>, n: nat)
    ensures Sum(s + [n]) == Sum(s) + n
  {
    assert (s + [n])[..|s|] == s;
  }

  lemma {:induction false} RunsAddUp(samples: seq<bool>, runs: seq<nat>)
    requires runs == Runs(samples)
    ensures Sum(runs) == |samples|
    decreases |samples|
  {
    var n := |samples| - 1;
    if n > 0 {
      var before := Runs(samples[..n]);
      RunsAddUp(samples[..n], before);
      SumAppend(before, 1);
      SumAppend(before[..|before| - 1], before[|before| - 1] + 1);
    } else if n == 0 {
      SumAppend([], 1);
      assert [] + [1] == [1];
    }
  }

  /** No run is longer than the timer can count. */
  ghost predicate Countable(runs: seq<nat>) {
    forall i :: 0 <= i < |runs| ==> runs[i] < WRAP
  }

  lemma ExactEntries(raw: seq<Word>, runs: seq<nat>)
    requires Holds(raw, runs) && |raw| == |runs| && Countable(runs)
    ensures raw[1..] == runs[..|runs| - 1]
  {
  }

  lemma SumOfEntries(p: Params, runs: seq<nat>, last: bool)
    requires Matches(p, runs, last) && (p.rcvstate.Mark? || p.rcvstate.Space?) && Countable(runs) && Positive(runs)
    ensures Sum(p.raw[1..]) + p.timer + 1 == Sum(runs)
  {
    ExactEntries(p.raw, runs);
  }

  /** While recording, the entries after the gap and the timer add up to the interrupts
      since recording began, as long as no run is longer than the timer can count. */
  lemma EntriesAddUp(p0: Params, samples: seq<bool>, p: Params, since: seq<bool>)
    requires Resumed(p0) && p == SampleAll(p0, samples) && since == SinceAll(p0, [], samples)
    requires (p.rcvstate.Mark? || p.rcvstate.Space?) && Countable(Runs(since))
    ensures |p.raw| > 0 && Sum(p.raw[1..]) + p.timer == |since| - 1
  {
    WaveformTracked(p0, samples);
    RunsPositive(since);
    RunsAddUp(since, Runs(since));
    SumOfEntries(p, Runs(since), since[|since| - 1]);
  }

  lemma OddRuns(n: nat)
    requires n > 0
    ensures LevelOf(true, n - 1) <==> n % 2 == 1
  {
  }

  /** Marks are at the odd indices. */
  lemma Parity(p0: Params, samples: seq<bool>, p: Params)
    requires Resumed(p0) && p == SampleAll(p0, samples) && (p.rcvstate.Mark? || p.rcvstate.Space?)
    ensures p.rcvstate.Mark? <==> |p.raw| % 2 == 1
  {
    var since := SinceAll(p0, [], samples);
    WaveformTracked(p0, samples);
    UnrollRuns(since);
    OddRuns(|Runs(since)|);
  }

  // ---------- when recording begins ----------

  lemma {:induction false} SampleConcat(p: Params, a: seq<bool>, b: seq<bool>)
    ensures SampleAll(p, a + b) == SampleAll(SampleAll(p, a), b)
    decreases |b|
  {
    if b == [] {
      assert a + b == a;
    } else {
      var n := |b| - 1;
      assert (a + b)[..|a + b| - 1] == a + b[..n];
      SampleConcat(p, a, b[..n]);
    }
  }

  lemma SampleOneMore(p: Params, n: nat, mark: bool)
    ensures SampleAll(p, Repeat(mark, n + 1)) == Sample(SampleAll(p, Repeat(mark, n)), mark)
  {
    assert Repeat(mark, n + 1) == Repeat(mark, n) + [mark];
    assert Repeat(mark, n + 1)[..n] == Repeat(mark, n);
  }

  lemma NoSamples(p: Params, mark: bool)
    ensures SampleAll(p, Repeat(mark, 0)) == p
  {
  }

  /** Resumed and without a mark the timer only counts, around its end too. */
  lemma {:induction false} Waits(p: Params, n: nat)
    requires p.rcvstate == Idle && p.raw == []
    ensures SampleAll(p, Repeat(false, n)) == p.(timer := (p.timer + n) % WRAP)
    decreases n
  {
    hide SampleAll, Sample, Repeat, Ticked;
    if n == 0 {
      NoSamples(p, false);
    } else {
      SampleOneMore(p, n - 1, false);
      Waits(p, n - 1);
      TimerAdvances(p.timer + n);
      WaitStep(SampleAll(p, Repeat(false, n - 1)));
    }
  }

  lemma WaitStep(p: Params)
    requires p.rcvstate == Idle && p.raw == []
    ensures Sample(p, false) == p.(timer := Ticked(p.timer))
  {
  }

  /** What the timer comes to with n spaces and a mark. */
  function Shows(timer: Word, n: nat): Word { (timer + n + 1) % WRAP }

  lemma ShowsNext(timer: Word, n: nat)
    ensures Ticked((timer + n) % WRAP) == Shows(timer, n)
  {
    TimerAdvances(timer + n + 1);
  }

  lemma MarkStep(p: Params)
    requires p.rcvstate == Idle && p.raw == []
    ensures Sample(p, true) ==
            if Ticked(p.timer) < GAP_TICKS then Params(Idle, 0, []) else Params(Mark, 0, [Ticked(p.timer)])
  {
  }

  /** The first mark after n spaces begins a recording if and only if the timer then shows a gap. */
  lemma GapThenMark(p: Params, n: nat)
    requires p.rcvstate == Idle && p.raw == []
    ensures var gap := Shows(p.timer, n);
      SampleAll(p, Repeat(false, n) + [true]) == if gap < GAP_TICKS then Params(Idle, 0, []) else Params(Mark, 0, [gap])
  {
    hide SampleAll, Sample, Ticked, Repeat, Shows;
    var p1 := SampleAll(p, Repeat(false, n));
    Waits(p, n);
    SampleLast(p, Repeat(false, n), true);
    ShowsNext(p.timer, n);
    MarkStep(p1);
  }

  lemma SampleNone(p: Params)
    ensures SampleAll(p, []) == p
  {
  }

  lemma SampleLast(p: Params, samples: seq<bool>, mark: bool)
    ensures SampleAll(p, samples + [mark]) == Sample(SampleAll(p, samples), mark)
  {
    assert (samples + [mark])[..|samples|] == samples;
  }

  /** Marks, with so many spaces before each of them. */
  function Marks(spaces: seq<nat>): seq<bool>
    decreases |spaces|
  {
    var m := |spaces| - 1;
    if m < 0 then [] else Marks(spaces[..m]) + (Repeat(false, spaces[m]) + [true])
  }

  /** What the timer shows at mark i if nothing has been recorded before it. */
  function Shown(p: Params, spaces: seq<nat>, i: nat): Word
    requires i < |spaces|
  {
    Shows(if i == 0 then p.timer else 0, spaces[i])
  }

  lemma {:induction false} NoWayBack(p: Params, samples: seq<bool>)
    requires p.rcvstate != Idle
    ensures SampleAll(p, samples).rcvstate != Idle
    decreases |samples|
  {
    if samples != [] { NoWayBack(p, samples[..|samples| - 1]); }
  }

  /** No mark with a gap before it, counted from the mark before. */
  ghost predicate NoGap(p: Params, spaces: seq<nat>) {
    forall i :: 0 <= i < |spaces| ==> Shown(p, spaces, i) < GAP_TICKS
  }

  lemma NoGapGrows(p: Params, spaces: seq<nat>, m: nat)
    requires |spaces| == m + 1
    ensures NoGap(p, spaces) <==> NoGap(p, spaces[..m]) && Shown(p, spaces, m) < GAP_TICKS
  {
    assert forall i :: 0 <= i < m ==> Shown(p, spaces[..m], i) == Shown(p, spaces, i);
  }

  /** The last mark with the spaces before it. */
  lemma LastOfMarks(p: Params, spaces: seq<nat>, m: nat)
    requires |spaces| == m + 1
    ensures Marks(spaces) == Marks(spaces[..m]) + (Repeat(false, spaces[m]) + [true])
    ensures Shown(p, spaces, m) == Shows(if spaces[..m] == [] then p.timer else 0, spaces[m])
  {
  }

  /** Whatever marks come after a resume: nothing has been recorded if and only if none of them had a gap before it. */
  lemma {:induction false} NothingRecorded(p: Params, spaces: seq<nat>)
    requires p.rcvstate == Idle && p.raw == []
    ensures var p' := SampleAll(p, Marks(spaces));
      && (p'.rcvstate == Idle <==> NoGap(p, spaces))
      && (p'.rcvstate == Idle ==> p' == Params(Idle, if spaces == [] then p.timer else 0, []))
    decreases |spaces|
  {
    var m := |spaces| - 1;
    if m < 0 {
      SampleNone(p);
    } else {
      hide SampleAll, Sample, NoGap, Repeat, Shows, Shown, Marks;
      LastOfMarks(p, spaces, m);
      var p1 := SampleAll(p, Marks(spaces[..m]));
      NothingRecorded(p, spaces[..m]);
      NoGapGrows(p, spaces, m);
      SampleConcat(p, Marks(spaces[..m]), Repeat(false, spaces[m]) + [true]);
      if p1.rcvstate == Idle {
        GapThenMark(p1, spaces[m]);
      } else {
        NoWayBack(p1, Repeat(false, spaces[m]) + [true]);
      }
    }
  }

  /** Once stopped, nothing is recorded any more. */
  lemma {:induction false} StopHolds(p: Params, samples: seq<bool>)
    requires p.rcvstate == Stop
    ensures SampleAll(p, samples).rcvstate == Stop && SampleAll(p, samples).raw == p.raw
    decreases |samples|
  {
    if samples != [] { StopHolds(p, samples[..|samples| - 1]); }
  }

  lemma StopStep(p: Params, mark: bool)
    requires p.rcvstate == Stop
    ensures Sample(p, mark) == p.(timer := if mark then 0 else Ticked(p.timer))
  {
  }

  lemma {:induction false} StopWaits(p: Params, n: nat)
    requires p.rcvstate == Stop
    ensures SampleAll(p, Repeat(false, n)) == p.(timer := (p.timer + n) % WRAP)
    decreases n
  {
    hide SampleAll, Sample, Repeat, Ticked;
    if n == 0 {
      NoSamples(p, false);
    } else {
      SampleOneMore(p, n - 1, false);
      StopWaits(p, n - 1);
      TimerAdvances(p.timer + n);
      StopStep(SampleAll(p, Repeat(false, n - 1)), false);
    }
  }

  /** With the recording stopped the timer goes on measuring the gap, anew from every mark. */
  lemma GapWhileStopped(p: Params, samples: seq<bool>, n: nat)
    requires p.rcvstate == Stop
    ensures SampleAll(p, samples + [true] + Repeat(false, n)) == p.(timer := n % WRAP)
  {
    hide SampleAll, Sample, Repeat;
    var p1 := SampleAll(p, samples);
    StopHolds(p, samples);
    SampleLast(p, samples, true);
    StopStep(p1, true);
    SampleConcat(p, samples + [true], Repeat(false, n));
    StopWaits(SampleAll(p, samples + [true]), n);
  }

  // ---------- one transmission ----------

  /** No run is longer than the timer can count, no space long enough to end the recording. */
  ghost predicate Recordable(runs: seq<nat>) {
    |runs| < RAWBUF &&
    forall i :: 0 <= i < |runs| ==> 1 <= runs[i] < WRAP && (i % 2 == 1 ==> runs[i] <= GAP_TICKS + 1)
  }

  lemma RunGoesOn(state: RcvState, timer: nat, raw: seq<Word>)
    requires state.Mark? || state.Space?
    requires timer + 1 < WRAP && |raw| < RAWBUF && (state.Space? ==> timer + 1 <= GAP_TICKS)
    ensures Sample(Params(state, timer, raw), state.Mark?) == Params(state, timer + 1, raw)
  {
  }

  /** A run after others. */
  lemma {:induction false} RecordRun(p: Params, n: nat, mark: bool)
    requires n >= 1 && 1 <= |p.raw| < RAWBUF - 1 && n < WRAP
    requires p.rcvstate == (if mark then Space else Mark)
    requires !mark ==> n <= GAP_TICKS + 1
    ensures SampleAll(p, Repeat(mark, n)) ==
            Params(if mark then Mark else Space, n - 1, p.raw + [Ticked(p.timer)])
    decreases n
  {
    hide Sample, SampleAll, Repeat, Ticked;
    SampleOneMore(p, n - 1, mark);
    if n == 1 {
      NoSamples(p, mark);
      RunBegins(p, mark);
    } else {
      RecordRun(p, n - 1, mark);
      RunGoesOn(if mark then Mark else Space, n - 2, p.raw + [Ticked(p.timer)]);
    }
  }

  lemma RunBegins(p: Params, mark: bool)
    requires |p.raw| < RAWBUF && p.rcvstate == if mark then Space else Mark
    ensures Sample(p, mark) == Params(if mark then Mark else Space, 0, p.raw + [Ticked(p.timer)])
  {
  }

  /** The first run of a transmission. */
  lemma {:induction false} FirstRun(p: Params, n: nat)
    requires p.rcvstate == Idle && p.raw == [] && Ticked(p.timer) >= GAP_TICKS && 1 <= n < WRAP
    ensures SampleAll(p, Repeat(true, n)) == Params(Mark, n - 1, [Ticked(p.timer)])
    decreases n
  {
    SampleOneMore(p, n - 1, true);
    if n == 1 {
      NoSamples(p, true);
    } else {
      FirstRun(p, n - 1);
      RunGoesOn(Mark, n - 2, [Ticked(p.timer)]);
    }
  }

  /** In the last of these runs, those before it recorded. */
  ghost predicate Recorded(p: Params, gap: nat, runs: seq<nat>)
    requires runs != []
  {
    var m := |runs| - 1;
    p.rcvstate == (if LevelOf(true, m) then Mark else Space) && p.timer + 1 == runs[m] && p.raw == [gap] + runs[..m]
  }

  lemma RecordNextRaw(gap: nat, runs: seq<nat>, n: nat)
    requires runs != []
    ensures [gap] + (runs + [n])[..|runs|] == [gap] + runs[..|runs| - 1] + [runs[|runs| - 1]]
  {
  }

  lemma RecordNext(p: Params, gap: nat, runs: seq<nat>, n: nat)
    requires runs != [] && Recorded(p, gap, runs) && Recordable(runs + [n])
    ensures Recorded(SampleAll(p, Repeat(LevelOf(true, |runs|), n)), gap, runs + [n])
  {
    hide SampleAll;
    var m := |runs| - 1;
    assert (runs + [n])[m] == runs[m] && (runs + [n])[m + 1] == n;
    RecordRun(p, n, LevelOf(true, |runs|));
    LevelFlips(true, m);
    RecordNextRaw(gap, runs, n);
  }

  lemma UnrollNone(first: bool)
    ensures Unroll([], first) == []
  {
  }

  /** After a gap, alternating runs are recorded one by one, each when it has ended. */
  lemma {:induction false} RunsRecorded(p: Params, runs: seq<nat>)
    requires p.rcvstate == Idle && p.raw == [] && Ticked(p.timer) >= GAP_TICKS && runs != [] && Recordable(runs)
    ensures Recorded(SampleAll(p, Unroll(runs, true)), Ticked(p.timer), runs)
    decreases |runs|
  {
    hide SampleAll, Sample, Ticked, Unroll, Repeat;
    var m := |runs| - 1;
    var rest, n := runs[..m], runs[m];
    SampleConcat(p, Unroll(rest, true), Repeat(LevelOf(true, m), n));
    FrontLast(runs);
    UnrollAppend(rest, n, true);
    if m == 0 {
      UnrollNone(true);
      assert [] + Repeat(true, n) == Repeat(true, n);
      FirstRun(p, n);
      assert [Ticked(p.timer)] + runs[..0] == [Ticked(p.timer)];
    } else {
      RunsRecorded(p, rest);
      RecordNext(SampleAll(p, Unroll(rest, true)), Ticked(p.timer), rest, n);
    }
  }

  /** The first sample of the space after a transmission records its last mark. */
  lemma MarkEnds(p: Params, n: nat)
    requires p.rcvstate == Mark && 1 <= |p.raw| < RAWBUF && n >= 1
    ensures SampleAll(p, Repeat(false, n)) ==
            SampleAll(Params(Space, 0, p.raw + [Ticked(p.timer)]), Repeat(false, n - 1))
    decreases n
  {
    SampleOneMore(p, n - 1, false);
    if n > 1 {
      MarkEnds(p, n - 1);
      SampleOneMore(Params(Space, 0, p.raw + [Ticked(p.timer)]), n - 2, false);
    }
  }

  /** In a space, nothing new recorded; the recording ends once the space is too long, or the buffer full. */
  ghost predicate InSpace(p: Params, raw: seq<Word>, n: nat) {
    p.raw == raw && (p.rcvstate == Stop || (p.rcvstate == Space && p.timer == n && n <= GAP_TICKS))
  }

  lemma SpaceStep(p: Params, raw: seq<Word>, n: nat)
    requires InSpace(p, raw, n)
    ensures InSpace(Sample(p, false), raw, n + 1)
  {
  }

  lemma {:induction false} SpaceGoesOn(p: Params, n: nat)
    requires p.rcvstate == Space && p.timer == 0
    ensures InSpace(SampleAll(p, Repeat(false, n)), p.raw, n)
    decreases n
  {
    if n > 0 {
      SampleOneMore(p, n - 1, false);
      SpaceGoesOn(p, n - 1);
      SpaceStep(SampleAll(p, Repeat(false, n - 1)), p.raw, n - 1);
    } else {
      NoSamples(p, false);
    }
  }

  lemma Stopped(p: Params, gap: Word, runs: seq<nat>, after: nat)
    requires runs != [] && Recorded(p, gap, runs) && |runs| % 2 == 1 && Recordable(runs) && after >= GAP_TICKS + 2
    ensures SampleAll(p, Repeat(false, after)).rcvstate == Stop
    ensures SampleAll(p, Repeat(false, after)).raw == [gap] + runs
  {
    hide SampleAll;
    var m := |runs| - 1;
    var p1 := Params(Space, 0, p.raw + [Ticked(p.timer)]);
    MarkEnds(p, after);
    SpaceGoesOn(p1, after - 1);
    assert p1.raw == [gap] + runs by {
      FrontLast(runs);
      Assoc([gap], runs[..m], [runs[m]]);
    }
  }

  /**
     A whole transmission, from a gap to a long space: the interrupt is in the stop state
     with the gap and exactly the runs of the transmission in its buffer.
   */
  lemma TransmissionRecorded(p: Params, runs: seq<nat>, after: nat)
    requires p.rcvstate == Idle && p.raw == [] && Ticked(p.timer) >= GAP_TICKS && after >= GAP_TICKS + 2
    requires |runs| % 2 == 1 && Recordable(runs)
    ensures var p' := SampleAll(p, Unroll(runs, true) + Repeat(false, after));
      p'.rcvstate == Stop && p'.raw == [Ticked(p.timer)] + runs
  {
    SampleConcat(p, Unroll(runs, true), Repeat(false, after));
    RunsRecorded(p, runs);
    Stopped(SampleAll(p, Unroll(runs, true)), Ticked(p.timer), runs, after);
  }

  /** A transmission of more runs than there is room for: the buffer is full with the first of them, and
      the interrupt stops, whatever follows. */
  lemma BufferFull(p: Params, runs: seq<nat>, more: seq<bool>)
    requires p.rcvstate == Idle && p.raw == [] && Ticked(p.timer) >= GAP_TICKS
    requires |runs| == RAWBUF - 1 && Recordable(runs) && more != []
    ensures var p' := SampleAll(p, Unroll(runs, true) + [false] + more);
      p'.rcvstate == Stop && p'.raw == [Ticked(p.timer)] + runs
  {
    hide SampleAll, Unroll;
    var m := |runs| - 1;
    var p1 := SampleAll(p, Unroll(runs, true));
    RunsRecorded(p, runs);
    LastMark(p1, Ticked(p.timer), runs);
    SampleLast(p, Unroll(runs, true), false);
    SampleConcat(p, Unroll(runs, true) + [false], more);
    StopsFull(SampleAll(p, Unroll(runs, true) + [false]), more);
  }

  lemma LastMark(p: Params, gap: Word, runs: seq<nat>)
    requires |runs| % 2 == 1 && |runs| == RAWBUF - 1 && Recorded(p, gap, runs) && Recordable(runs)
    ensures Sample(p, false).raw == [gap] + runs
  {
    FrontLast(runs);
    Assoc([gap], runs[..|runs| - 1], [runs[|runs| - 1]]);
  }

  lemma {:induction false} StopsFull(p: Params, more: seq<bool>)
    requires |p.raw| >= RAWBUF && more != []
    ensures SampleAll(p, more).rcvstate == Stop && SampleAll(p, more).raw == p.raw
    decreases |more|
  {
    var m := |more| - 1;
    if m > 0 { StopsFull(p, more[..m]); } else { SampleNone(p); }
  }
}
