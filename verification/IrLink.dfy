/**
 An RC5 transmission from sendRC5 through the capture interrupt to decodeRC5.
 */
module IrLink {
  import opened Basics
  import opened IrCapture
  import opened IrRc5

  // ---------- the runs of a transmission ----------

  ghost predicate Short(runs: seq<nat>) {
    forall i :: 0 <= i < |runs| ==> 1 <= runs[i] <= 2
  }

  lemma GrownShort(runs: seq<nat>, same: bool)
    requires runs != [] && Short(runs) && runs[|runs| - 1] == 1
    ensures Short(Grown(runs, same)) && |Grown(runs, same)| <= |runs| + 1
    ensures Grown(runs, same)[|Grown(runs, same)| - 1] == if same then 2 else 1
  {
  }

  lemma GrownNew(runs: seq<nat>)
    requires runs != [] && Short(runs)
    ensures Short(Grown(runs, false)) && |Grown(runs, false)| == |runs| + 1 && Grown(runs, false)[|runs|] == 1
  {
  }

  ghost predicate FrameLike(runs: seq<nat>, n: nat) {
    runs != [] && |runs| <= n && Short(runs) && runs[|runs| - 1] == 1
  }

  lemma CellRuns(levels: seq<bool>, bit: bool, runs: seq<nat>)
    requires levels != [] && runs == Runs(levels) && FrameLike(runs, |levels|)
    ensures FrameLike(Runs(levels + [!bit] + [bit]), |levels| + 2)
  {
    var same := !bit == levels[|levels| - 1];
    RunsAppend(levels, !bit);
    GrownShort(runs, same);
    RunsAppend(levels + [!bit], bit);
    GrownNew(Grown(runs, same));
  }

  /** Half-bits merge into runs of one or two, never three. */
  lemma {:induction false} FrameRuns(bits: seq<bool>)
    ensures FrameLike(Runs(Frame(bits)), |Frame(bits)|)
    decreases |bits|
  {
    var n := |bits| - 1;
    if n < 0 {
      assert Frame(bits) == [] + [true] + [false] + [true];
      assert Runs([true]) == [1];
      RunsAppend([true], false);
      RunsAppend([true] + [false], true);
      assert [] + [true] + [false] + [true] == [true] + [false] + [true];
    } else {
      var front, b := bits[..n], bits[n];
      FrameRuns(front);
      CellsAppend(front, b);
      FrontLast(bits);
      CellRuns(Frame(front), b, Runs(Frame(front)));
      assert Frame(bits) == Frame(front) + [!b] + [b];
    }
  }

  /** Each cell adds a run, or two. */
  lemma CellAddsRuns(levels: seq<bool>, bit: bool)
    requires levels != [] && FrameLike(Runs(levels), |levels|)
    ensures 1 <= |Runs(levels + [!bit] + [bit])| - |Runs(levels)| <= 2
  {
    var same := !bit == levels[|levels| - 1];
    RunsAppend(levels, !bit);
    RunsAppend(levels + [!bit], bit);
    GrownShort(Runs(levels), same);
    GrownNew(Grown(Runs(levels), same));
  }

  lemma {:induction false} HowManyRuns(bits: seq<bool>)
    ensures |bits| + 3 <= |Runs(Frame(bits))| <= 2 * |bits| + 3
    decreases |bits|
  {
    var n := |bits| - 1;
    if n < 0 {
      assert Runs([true]) == [1];
      RunsAppend([true], false);
      RunsAppend([true] + [false], true);
      assert Frame(bits) == [true] + [false] + [true];
    } else {
      HowManyRuns(bits[..n]);
      FrameRuns(bits[..n]);
      CellsAppend(bits[..n], bits[n]);
      FrontLast(bits);
      CellAddsRuns(Frame(bits[..n]), bits[n]);
      assert Frame(bits) == Frame(bits[..n]) + [!bits[n]] + [bits[n]];
    }
  }

  // ---------- measured runs ----------

  /** The runs that a recording of these half-bits has: a space at the end is not recorded. */
  function RecordedRuns(levels: seq<bool>): seq<nat>
    requires levels != []
  {
    var u := Runs(levels);
    if levels[|levels| - 1] then u else u[..|u| - 1]
  }

  /** Every run measured within 25% of what the sensor is expected to show. */
  ghost predicate Measured(widths: seq<nat>, units: seq<nat>) {
    |widths| == |units| &&
    forall i :: 0 <= i < |units| ==> units[i] > 0 && Match(widths[i], Expected(units[i], LevelOf(true, i)))
  }

  /** The windows of one and two half-bits do not overlap, and are far from the timer's limits. */
  lemma WindowsApart(width: nat, n: nat, mark: bool)
    requires 1 <= n <= 2 && Match(width, Expected(n, mark))
    ensures Units(width, mark) == n && 1 <= width <= GAP_TICKS
  {
  }

  lemma {:induction false} LevelsAppend(raw: seq<Word>, w: Word, k: nat)
    requires k <= |raw|
    ensures var n := Units(w, IsMark(|raw|));
      match Levels(raw, k)
      case None => Levels(raw + [w], k) == None
      case Some(levels) => n > 0 ==> Levels(raw + [w], k) == Some(levels + Repeat(IsMark(|raw|), n))
    decreases |raw| - k
  {
    if k == |raw| {
      var n := Units(w, IsMark(|raw|));
      assert Levels(raw + [w], k + 1) == Some([]);
      assert Repeat(IsMark(|raw|), n) + [] == [] + Repeat(IsMark(|raw|), n);
    } else {
      LevelsAppend(raw, w, k + 1);
      assert (raw + [w])[k] == raw[k];
      if Levels(raw, k).Some? {
        var m, n := Units(raw[k], IsMark(k)), Units(w, IsMark(|raw|));
        Assoc(Repeat(IsMark(k), m), Levels(raw, k + 1).value, Repeat(IsMark(|raw|), n));
      }
    }
  }

  lemma SameLevel(i: nat)
    ensures LevelOf(true, i) == IsMark(i + 1)
  {
  }

  /** Measured runs are taken for what they are. */
  lemma {:induction false} LevelsOfRuns(gap: Word, widths: seq<Word>, units: seq<nat>)
    requires Measured(widths, units) && Short(units)
    ensures Levels([gap] + widths, 1) == Some(Unroll(units, true))
    decreases |units|
  {
    var m := |units| - 1;
    if m < 0 {
      assert [gap] + widths == [gap];
    } else {
      var front := widths[..m];
      LevelsOfRuns(gap, front, units[..m]);
      WindowsApart(widths[m], units[m], LevelOf(true, m));
      SameLevel(m);
      LevelsAppend([gap] + front, widths[m], 1);
      FrontLast(widths);
      Assoc([gap], front, [widths[m]]);
    }
  }

  lemma MeasuredRecordable(widths: seq<nat>, units: seq<nat>)
    requires Measured(widths, units) && Short(units) && |units| < RAWBUF
    ensures Recordable(widths)
  {
    forall i | 0 <= i < |widths| ensures 1 <= widths[i] <= GAP_TICKS {
      WindowsApart(widths[i], units[i], LevelOf(true, i));
    }
  }

  /** What is recorded of half-bits that begin with a mark and end in a run of one. */
  lemma RecordedLevels(levels: seq<bool>)
    requires levels != [] && levels[0] && FrameLike(Runs(levels), |levels|)
    ensures var u := RecordedRuns(levels);
      && Short(u) && |u| <= |levels| && |u| % 2 == 1
      && (Unroll(u, true) == levels || Unroll(u, true) + [false] == levels)
  {
    hide Unroll, Runs;
    var all := Runs(levels);
    UnrollRuns(levels);
    OddRuns(|all|);
    if !levels[|levels| - 1] {
      LastSpace(all);
    }
  }

  lemma LastSpace(all: seq<nat>)
    requires all != [] && all[|all| - 1] == 1 && !LevelOf(true, |all| - 1)
    ensures Unroll(all, true) == Unroll(all[..|all| - 1], true) + [false]
  {
    var m := |all| - 1;
    FrontLast(all);
    UnrollAppend(all[..m], 1, true);
    assert Repeat(false, 1) == Repeat(false, 0) + [false];
  }

  // ---------- how much sensor lag is tolerated ----------

  /** c interrupts, 50 microseconds apart, can fall into a run of this length. */
  predicate CanCount(c: nat, usec: int) { 50 * (c - 1) < usec < 50 * (c + 1) }

  /** How long a run of n half-bits is when the sensor makes every mark longer by `lag`. */
  function Seen(n: nat, mark: bool, lag: int): int {
    if mark then n * RC5_T1 + lag else n * RC5_T1 - lag
  }

  /** Every run sampled within its window, whenever the interrupts fall. */
  ghost predicate AlwaysMatches(lag: int) {
    forall c: nat, n, mark :: 1 <= n <= 2 && CanCount(c, Seen(n, mark, lag)) ==> Match(c, Expected(n, mark))
  }

  /** The tolerance windows allow exactly a sensor lag between -111 and 339 microseconds. */
  lemma SensorLag(lag: int)
    ensures AlwaysMatches(lag) <==> -111 <= lag <= 339
  {
    if lag < -111 {
      var c := (889 - lag + 49) / 50;
      assert CanCount(c, Seen(1, false, lag)) && !Match(c, Expected(1, false));
    } else if 339 < lag < 439 {
      assert CanCount(10, Seen(1, false, lag)) && !Match(10, Expected(1, false));
    } else if lag >= 439 {
      var c := (889 + lag) / 50;
      assert CanCount(c, Seen(1, true, lag)) && !Match(c, Expected(1, true));
    }
  }

  // ---------- the whole way ----------

  /** The bits that sendRC5 sends for these arguments. */
  function Sent(data: nat, nbits: nat): seq<bool>
    requires nbits <= 32
  {
    TopBits(data * Pow2(32 - nbits) % WORD, nbits)
  }

  /**
     decodeRC5 inverts sendRC5: a transmission heard after a gap, every run measured inside
     its window, and followed by a long space, decodes to the low nbits bits of the data,
     if and only if it has the samples that decodeRC5 asks for.
   */
  lemma RoundTrip(p: Params, data: nat, nbits: nat, widths: seq<Word>, after: nat)
    requires 1 <= nbits <= 32 && Measured(widths, RecordedRuns(Frame(Sent(data, nbits))))
    requires p.rcvstate == Idle && p.raw == [] && Ticked(p.timer) >= GAP_TICKS && after >= GAP_TICKS + 2
    ensures var p' := SampleAll(p, Unroll(widths, true) + Repeat(false, after));
      && p'.rcvstate == Stop && |p'.raw| == |widths| + 1
      && Decode(p'.raw) == (if |p'.raw| >= MIN_RC5_SAMPLES + 2 then Some(Sent(data, nbits)) else None)
    ensures |Sent(data, nbits)| == nbits && Value(Sent(data, nbits)) == data % Pow2(nbits)
  {
    var bits := Sent(data, nbits);
    var units := RecordedRuns(Frame(bits));
    SentBits(data, nbits);
    FrameRuns(bits);
    RecordedLevels(Frame(bits));
    MeasuredRecordable(widths, units);
    TransmissionRecorded(p, widths, after);
    LevelsOfRuns(Ticked(p.timer), widths, units);
    DecodesExactly([Ticked(p.timer)] + widths, bits);
  }

  /** Ten bits are always enough samples, four never are. */
  lemma EnoughBits(bits: seq<bool>)
    ensures |bits| >= 10 ==> |RecordedRuns(Frame(bits))| + 1 >= MIN_RC5_SAMPLES + 2
    ensures |bits| <= 4 ==> |RecordedRuns(Frame(bits))| + 1 < MIN_RC5_SAMPLES + 2
  {
    HowManyRuns(bits);
  }

  /** Sampled with the interrupts anywhere, by a sensor with this lag. */
  ghost predicate SampledWith(lag: int, widths: seq<nat>, units: seq<nat>) {
    |widths| == |units| &&
    forall i :: 0 <= i < |units| ==> CanCount(widths[i], Seen(units[i], LevelOf(true, i), lag))
  }

  lemma LagMeasured(lag: int, widths: seq<nat>, units: seq<nat>)
    requires -111 <= lag <= 339 && Short(units) && SampledWith(lag, widths, units)
    ensures Measured(widths, units)
  {
    hide Match, CanCount, Expected, Seen;
    SensorLag(lag);
  }

  /** From sendRC5 through a sensor with a tolerable lag, any sampling and the interrupt to
      decodeRC5: the low nbits bits of the data come back, if they are ten or more. */
  lemma RoundTripWithLag(p: Params, data: nat, nbits: nat, lag: int, widths: seq<Word>, after: nat)
    requires 10 <= nbits <= 32 && -111 <= lag <= 339
    requires SampledWith(lag, widths, RecordedRuns(Frame(Sent(data, nbits))))
    requires p.rcvstate == Idle && p.raw == [] && Ticked(p.timer) >= GAP_TICKS && after >= GAP_TICKS + 2
    ensures Decode(SampleAll(p, Unroll(widths, true) + Repeat(false, after)).raw) == Some(Sent(data, nbits))
    ensures |Sent(data, nbits)| == nbits && Value(Sent(data, nbits)) == data % Pow2(nbits)
  {
    var bits := Sent(data, nbits);
    FrameRuns(bits);
    RecordedLevels(Frame(bits));
    LagMeasured(lag, widths, RecordedRuns(Frame(bits)));
    EnoughBits(bits);
    RoundTrip(p, data, nbits, widths, after);
  }
}
