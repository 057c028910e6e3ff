/**
 How the debounce filter behaves in time, with its default thresholds: how many samples a
 change takes, how long there is none after a change, and when the output follows the input.
 */
module DebounceTiming {
  import opened DebounceInput

  function Step(f: Filter, sample: bool): Filter { Next(DEFAULT, f, sample) }

  /** The filter after some samples. */
  function Filtered(f: Filter, samples: seq<bool>): Filter
    decreases |samples|
  {
    if samples == [] then f else Filtered(Step(f, samples[0]), samples[1..])
  }

  function Repeat(level: bool, n: nat): (s: seq<bool>)
    ensures |s| == n
  {
    seq(n, _ => level)
  }

  lemma {:induction false} FilteredConcat(f: Filter, a: seq<bool>, b: seq<bool>)
    ensures Filtered(f, a + b) == Filtered(Filtered(f, a), b)
    decreases |a|
  {
    if a == [] {
      assert a + b == b;
    } else {
      FilteredConcat(Step(f, a[0]), a[1..], b);
      assert (a + b)[1..] == a[1..] + b;
    }
  }

  lemma FilteredRepeat(f: Filter, level: bool, n: nat)
    requires n > 0
    ensures Filtered(f, Repeat(level, n)) == Filtered(Step(f, level), Repeat(level, n - 1))
  {
    assert Repeat(level, n)[1..] == Repeat(level, n - 1);
  }

  // ---------- more and higher samples never leave the filter lower ----------

  predicate Leq(f: Filter, g: Filter) {
    (f.output ==> g.output) && (f.output == g.output ==> f.first <= g.first && f.second <= g.second)
  }

  lemma KeptMonotone(x: bv16, y: bv16)
    requires x <= y <= 127
    ensures Kept(x) <= Kept(y) <= 190
  {
  }

  lemma SampleMonotone(x: bv16, y: bv16, s: bool, t: bool)
    requires x <= y <= 190 && (s ==> t)
    ensures WithSample(x, s) <= WithSample(y, t) <= 255
  {
  }

  lemma QuarterMonotone(x: bv16, y: bv16, a: bv16, b: bv16)
    requires x <= y <= 190 && a <= b <= 255
    ensures WithQuarter(x, a) <= WithQuarter(y, b) <= 253
  {
  }

  lemma OutputMonotone(x: bv16, y: bv16, output: bool)
    requires x <= y <= 253
    ensures WithOutput(x, output) <= WithOutput(y, output) <= 255
  {
  }

  lemma HalfMonotone(x: bv16, y: bv16)
    requires x <= y <= 255
    ensures x >> 1 <= y >> 1 <= 127
  {
  }

  lemma FirstMonotone(f: Filter, s: bool, g: Filter, t: bool)
    requires SevenBits(g) && f.first <= g.first && (s ==> t)
    ensures First(f, s) <= First(g, t) <= 255
  {
    hide Kept, WithSample;
    KeptMonotone(f.first, g.first);
    SampleMonotone(Kept(f.first), Kept(g.first), s, t);
  }

  lemma SecondMonotone(f: Filter, s: bool, g: Filter, t: bool)
    requires SevenBits(g) && f.second <= g.second && f.output == g.output && First(f, s) <= First(g, t) <= 255
    ensures Second(f, s) <= Second(g, t) <= 255
  {
    hide First, Kept, WithQuarter, WithOutput;
    KeptMonotone(f.second, g.second);
    QuarterMonotone(Kept(f.second), Kept(g.second), First(f, s), First(g, t));
    OutputMonotone(WithQuarter(Kept(f.second), First(f, s)), WithQuarter(Kept(g.second), First(g, t)), f.output);
  }

  lemma SumsMonotone(f: Filter, s: bool, g: Filter, t: bool)
    requires SevenBits(g) && f.first <= g.first && f.second <= g.second && f.output == g.output && (s ==> t)
    ensures First(f, s) <= First(g, t) <= 255 && Second(f, s) <= Second(g, t) <= 255
  {
    hide First, Second;
    FirstMonotone(f, s, g, t);
    SecondMonotone(f, s, g, t);
  }

  /** Higher sums never trigger lower. */
  lemma TriggerMonotone(hi: bv16, lo: bv16, hi2: bv16, lo2: bv16, output: bool)
    requires hi <= hi2 <= 255 && lo <= lo2 <= 255
    ensures Leq(Triggered(DEFAULT, hi, lo, output), Triggered(DEFAULT, hi2, lo2, output))
  {
    if output {
      if hi2 < 0x70 {
        Below(hi, hi2);
      } else if hi >= 0x70 {
        Halves(hi, lo, hi2, lo2);
      }
    } else {
      if hi > 0x90 {
        Above(hi, hi2);
      } else if hi2 <= 0x90 {
        Halves(hi, lo, hi2, lo2);
      }
    }
  }

  lemma Below(x: bv16, y: bv16)
    requires x <= y < 0x70
    ensures x < 0x70
  {
  }

  lemma Above(x: bv16, y: bv16)
    requires 0x90 < x <= y
    ensures 0x90 < y
  {
  }

  lemma Halves(hi: bv16, lo: bv16, hi2: bv16, lo2: bv16)
    requires hi <= hi2 <= 255 && lo <= lo2 <= 255
    ensures lo >> 1 <= lo2 >> 1 && hi >> 1 <= hi2 >> 1
  {
    HalfMonotone(lo, lo2);
    HalfMonotone(hi, hi2);
  }

  lemma StepMonotone(f: Filter, s: bool, g: Filter, t: bool)
    requires SevenBits(f) && SevenBits(g) && f.output == g.output && Leq(f, g) && (s ==> t)
    ensures Leq(Step(f, s), Step(g, t))
  {
    hide First, Second, Triggered;
    SumsMonotone(f, s, g, t);
    TriggerMonotone(Second(f, s), First(f, s), Second(g, t), First(g, t), f.output);
  }

  /** The bytes fit again after each sample. */
  lemma StepFits(f: Filter, sample: bool)
    requires SevenBits(f)
    ensures SevenBits(Step(f, sample))
  {
    hide First, Second;
    SumsMonotone(f, sample, f, sample);
    HalfMonotone(First(f, sample), 255);
    HalfMonotone(Second(f, sample), 255);
  }

  // ---------- the way from one rest to the other ----------

  /** The filter after n opposite samples from rest. */
  function Course(rising: bool, n: nat): Filter
    requires n <= 6
  {
    if rising then
      if n == 0 then Filter(0, 0, false, false) else if n == 1 then Filter(32, 8, false, false)
      else if n == 2 then Filter(56, 20, false, false) else if n == 3 then Filter(74, 33, false, false)
      else if n == 4 then Filter(88, 46, false, false) else if n == 5 then Filter(98, 59, false, false)
      else Filter(106, 70, false, false)
    else
      if n == 0 then Filter(127, 127, true, false) else if n == 1 then Filter(95, 119, true, false)
      else if n == 2 then Filter(71, 107, true, false) else if n == 3 then Filter(53, 94, true, false)
      else if n == 4 then Filter(39, 81, true, false) else if n == 5 then Filter(29, 68, true, false)
      else Filter(21, 57, true, false)
  }

  lemma CourseStep(rising: bool, n: nat)
    requires n <= 6
    ensures SevenBits(Course(rising, n)) && Course(rising, n).output == !rising
    ensures Step(Course(rising, n), rising) == if n < 6 then Course(rising, n + 1) else Rest(rising, true)
  {
    if n == 0 {} else if n == 1 {} else if n == 2 {} else if n == 3 {} else if n == 4 {} else if n == 5 {} else {}
  }

  /** No nearer to the other rest than after n opposite samples from rest. */
  predicate Behind(f: Filter, rising: bool, n: nat)
    requires n <= 6
  {
    SevenBits(f) && f.output == !rising && if rising then Leq(f, Course(rising, n)) else Leq(Course(rising, n), f)
  }

  /** At least as near. */
  predicate Ahead(f: Filter, rising: bool, n: nat)
    requires n <= 6
  {
    SevenBits(f) && f.output == !rising && if rising then Leq(Course(rising, n), f) else Leq(f, Course(rising, n))
  }

  lemma StepBehind(f: Filter, rising: bool, sample: bool, n: nat)
    requires n < 6 && Behind(f, rising, n)
    ensures Behind(Step(f, sample), rising, n + 1) && !Step(f, sample).changed
  {
    hide First, Second, Course;
    CourseStep(rising, n);
    CourseStep(rising, n + 1);
    StepFits(f, sample);
    if rising { StepMonotone(f, sample, Course(rising, n), rising); }
    else { StepMonotone(Course(rising, n), rising, f, sample); }
  }

  lemma StepAhead(f: Filter, rising: bool, n: nat)
    requires n <= 6 && Ahead(f, rising, n)
    ensures Step(f, rising) == Rest(rising, true) || (n < 6 && Ahead(Step(f, rising), rising, n + 1))
  {
    hide First, Second, Course;
    CourseStep(rising, n);
    StepFits(f, rising);
    if rising { StepMonotone(Course(rising, n), rising, f, rising); }
    else { StepMonotone(f, rising, Course(rising, n), rising); }
  }

  lemma {:induction false} StaysBehind(f: Filter, rising: bool, n: nat, samples: seq<bool>)
    requires n + |samples| <= 6 && Behind(f, rising, n)
    ensures Filtered(f, samples).output == !rising && (samples != [] ==> !Filtered(f, samples).changed)
    decreases |samples|
  {
    if samples != [] {
      StepBehind(f, rising, samples[0], n);
      StaysBehind(Step(f, samples[0]), rising, n + 1, samples[1..]);
    }
  }

  /** After a change or a reset there is no change for six samples, whatever they are: two
      changes are at least seven samples apart. */
  lemma QuietAfterChange(level: bool, changed: bool, samples: seq<bool>)
    requires 1 <= |samples| <= 6
    ensures Filtered(Rest(level, changed), samples).output == level && !Filtered(Rest(level, changed), samples).changed
  {
    StaysBehind(Rest(level, changed), !level, 0, samples);
  }

  /** At rest, samples of the same level change nothing. */
  lemma {:induction false} RestStays(level: bool, changed: bool, n: nat)
    ensures Filtered(Rest(level, changed), Repeat(level, n)).output == level
    decreases n
  {
    if n > 0 {
      FilteredRepeat(Rest(level, changed), level, n);
      assert Step(Rest(level, changed), level) == Rest(level, false);
      RestStays(level, false, n - 1);
    }
  }

  lemma {:induction false} GetsThere(f: Filter, level: bool, k: nat, n: nat)
    requires k <= 6 && Ahead(f, level, k) && n + k >= 7
    ensures Filtered(f, Repeat(level, n)).output == level
    decreases n
  {
    FilteredRepeat(f, level, n);
    StepAhead(f, level, k);
    var next := Step(f, level);
    if next == Rest(level, true) {
      RestStays(level, true, n - 1);
    } else {
      GetsThere(next, level, k + 1, n - 1);
    }
  }

  /** Seven samples of the other level in a row always flip the output; from rest fewer do not. */
  lemma FlipsAfterSeven(f: Filter, n: nat)
    requires SevenBits(f)
    ensures n >= 7 ==> Filtered(f, Repeat(!f.output, n)).output == !f.output
    ensures f == Rest(f.output, f.changed) ==> (Filtered(f, Repeat(!f.output, n)).output == !f.output <==> n >= 7)
  {
    if n >= 7 {
      GetsThere(f, !f.output, 0, n);
    } else if f == Rest(f.output, f.changed) && n > 0 {
      QuietAfterChange(f.output, f.changed, Repeat(!f.output, n));
    }
  }

  // ---------- when the output is the input ----------

  /** Out of danger of flipping away from the level that is sampled. */
  predicate Safe(f: Filter, level: bool) {
    SevenBits(f) && f.output == level &&
    if level then f.first >= 32 && f.second >= 56 else f.first <= 95 && f.second <= 72
  }

  lemma FirstBounds(f: Filter, sample: bool)
    requires SevenBits(f)
    ensures if sample then First(f, sample) >= 65 else First(f, sample) <= 190
  {
    if sample {} else {}
  }

  /** A sample of the output's level flips the output away, or makes it safe. */
  lemma FlipsOrSafe(f: Filter, level: bool)
    requires SevenBits(f) && f.output == level
    ensures Step(f, level) == Rest(!level, true) || Safe(Step(f, level), level)
  {
    hide First, Second;
    FirstBounds(f, level);
    StepFits(f, level);
    SumsMonotone(f, level, f, level);
    if level {
      HalfMonotone(65, First(f, level));
      if Second(f, level) >= 0x70 { HalfMonotone(0x70, Second(f, level)); }
    } else {
      HalfMonotone(First(f, level), 190);
      if Second(f, level) <= 0x90 { HalfMonotone(Second(f, level), 0x90); }
    }
  }

  lemma StaysSafe(f: Filter, level: bool)
    requires Safe(f, level)
    ensures Safe(Step(f, level), level)
  {
    if level {} else {}
  }

  lemma {:induction false} SafeForGood(f: Filter, level: bool, n: nat)
    requires Safe(f, level)
    ensures Filtered(f, Repeat(level, n)).output == level
    decreases n
  {
    if n > 0 {
      FilteredRepeat(f, level, n);
      StaysSafe(f, level);
      SafeForGood(Step(f, level), level, n - 1);
    }
  }

  lemma SettlesAfterEight(f: Filter, level: bool, n: nat)
    requires SevenBits(f) && n >= 8
    ensures Filtered(f, Repeat(level, n)).output == level
  {
    if f.output != level {
      GetsThere(f, level, 0, n);
    } else {
      FilteredRepeat(f, level, n);
      FlipsOrSafe(f, level);
      StepFits(f, level);
      if Safe(Step(f, level), level) {
        SafeForGood(Step(f, level), level, n - 1);
      } else {
        GetsThere(Step(f, level), level, 0, n - 1);
      }
    }
  }

  lemma {:induction false} AlwaysFits(f: Filter, samples: seq<bool>)
    requires SevenBits(f)
    ensures SevenBits(Filtered(f, samples))
    decreases |samples|
  {
    if samples != [] {
      StepFits(f, samples[0]);
      AlwaysFits(Step(f, samples[0]), samples[1..]);
    }
  }

  /** Samples after which the next one of the same level as the output flips it away. */
  function Misleading(level: bool): seq<bool> {
    if level then [false, false, false, false, false, false]
    else [true, true, false, true, true, false, true, true, true]
  }

  /** The output can flip on a sample of its own level: it lags behind. */
  lemma FlipsAgainstSample(level: bool, changed: bool)
    ensures Filtered(Rest(level, changed), Misleading(level)).output == level
    ensures Step(Filtered(Rest(level, changed), Misleading(level)), level) == Rest(!level, true)
  {
    if level { MisledDown(changed); } else { MisledUp(changed); }
  }

  lemma MisledDown(changed: bool)
    ensures Filtered(Rest(true, changed), Misleading(true)) == Filter(21, 57, true, false)
    ensures Step(Filter(21, 57, true, false), true) == Rest(false, true)
  {
    OneMore(Rest(true, changed), false, [false, false, false, false, false]);
    OneMore(Filter(95, 119, true, false), false, [false, false, false, false]);
    OneMore(Filter(71, 107, true, false), false, [false, false, false]);
    OneMore(Filter(53, 94, true, false), false, [false, false]);
    OneMore(Filter(39, 81, true, false), false, [false]);
    OneMore(Filter(29, 68, true, false), false, []);
  }

  lemma MisledUp(changed: bool)
    ensures Filtered(Rest(false, changed), Misleading(false)) == Filter(100, 72, false, false)
    ensures Step(Filter(100, 72, false, false), false) == Rest(true, true)
  {
    OneMore(Rest(false, changed), true, [true, false, true, true, false, true, true, true]);
    OneMore(Filter(32, 8, false, false), true, [false, true, true, false, true, true, true]);
    OneMore(Filter(56, 20, false, false), false, [true, true, false, true, true, true]);
    OneMore(Filter(42, 25, false, false), true, [true, false, true, true, true]);
    OneMore(Filter(64, 34, false, false), true, [false, true, true, true]);
    OneMore(Filter(80, 45, false, false), false, [true, true, true]);
    OneMore(Filter(60, 48, false, false), true, [true, true]);
    OneMore(Filter(77, 55, false, false), true, [true]);
    OneMore(Filter(90, 63, false, false), true, []);
  }

  lemma OneMore(f: Filter, sample: bool, rest: seq<bool>)
    ensures Filtered(f, [sample] + rest) == Filtered(Step(f, sample), rest)
  {
    assert ([sample] + rest)[1..] == rest;
  }

  /** The output after any history and then n equal samples. */
  function After(start: bool, changed: bool, history: seq<bool>, level: bool, n: nat): bool {
    Filtered(Rest(start, changed), history + Repeat(level, n)).output
  }

  lemma NotSettled(level: bool, n: nat)
    requires n < 8
    ensures exists start, changed, history :: After(start, changed, history, level, n) != level
  {
    if n == 0 {
      assert [] + Repeat(level, 0) == [];
      assert After(!level, false, [], level, 0) != level;
    } else {
      var history := Misleading(level);
      FlipsAgainstSample(level, false);
      var f := Filtered(Rest(level, false), history);
      FilteredConcat(Rest(level, false), history, Repeat(level, n));
      FilteredRepeat(f, level, n);
      FlipsAfterSeven(Rest(!level, true), n - 1);
      assert After(level, false, history, level, n) != level;
    }
  }

  /** Whatever has been sampled before, n equal samples in a row make the output that level,
      if and only if n is at least eight. */
  lemma SettlesExactly(level: bool, n: nat)
    ensures (forall start, changed, history :: After(start, changed, history, level, n) == level) <==> n >= 8
  {
    if n >= 8 {
      forall start, changed, history ensures After(start, changed, history, level, n) == level {
        AlwaysFits(Rest(start, changed), history);
        FilteredConcat(Rest(start, changed), history, Repeat(level, n));
        SettlesAfterEight(Filtered(Rest(start, changed), history), level, n);
      }
    } else {
      NotSettled(level, n);
    }
  }
}
