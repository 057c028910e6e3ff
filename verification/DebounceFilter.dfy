/**
 The debounce filter: two low-pass filters of seven bits, the output and a change mark in
 one 16-bit word, and a Schmitt trigger behind them.
 */
module DebounceInput {
  import opened Basics

  const OUTPUT_MASK: bv16 := 0x0100
  const CHANGE_MASK: bv16 := 0x0001
  const FILTERS: bv16 := 0xFEFE

  /** What the word holds. */
  datatype Filter = Filter(first: bv16, second: bv16, output: bool, changed: bool)

  datatype Thresholds = Thresholds(rising: bv16, falling: bv16)

  const DEFAULT: Thresholds := Thresholds(0x90, 0x70)

  function Unpack(w: bv16): Filter { Filter((w >> 1) & 0x7F, w >> 9, w & OUTPUT_MASK != 0, w & CHANGE_MASK != 0) }

  predicate SevenBits(f: Filter) { f.first <= 127 && f.second <= 127 }

  /** Three quarters of a filter: twice seven bits are eight, half and a quarter of which are added. */
  function Kept(x: bv16): bv16 { x + (x >> 1) }

  /** The first filter follows the samples, the second one the first. Both have eight bits here. */
  function First(f: Filter, sample: bool): bv16 { WithSample(Kept(f.first), sample) }

  function Second(f: Filter, sample: bool): bv16 {
    WithOutput(WithQuarter(Kept(f.second), First(f, sample)), f.output)
  }

  function WithSample(x: bv16, sample: bool): bv16 { if sample then x + 65 else x }

  function WithQuarter(x: bv16, first: bv16): bv16 { x + (first >> 2) }

  function WithOutput(x: bv16, output: bool): bv16 { if output then x + 2 else x }

  /** The filter at rest at a level. */
  function Rest(level: bool, changed: bool): Filter {
    if level then Filter(127, 127, true, changed) else Filter(0, 0, false, changed)
  }

  /** When the trigger flips the output, both filters are saturated. */
  function Triggered(t: Thresholds, hi: bv16, lo: bv16, output: bool): Filter {
    if (if output then hi < t.falling else hi > t.rising) then Rest(!output, true)
    else Filter(lo >> 1, hi >> 1, output, false)
  }

  function Next(t: Thresholds, f: Filter, sample: bool): Filter {
    Triggered(t, Second(f, sample), First(f, sample), f.output)
  }

  // ---------- the packed word ----------

  // The sums below are those of addSample: both filters times 3/4, the sample, a quarter
  // of the first filter into the second, and the output fed back.

  /** Two bytes in a word. */
  function Join(hi: bv16, lo: bv16): bv16 { (hi << 8) | lo }

  function BothKept(w: bv16): bv16 { ((w >> 1) & 0x7F7F) + ((w >> 2) & 0x3F3F) }

  function FirstAdded(mul: bv16): bv16 { mul + ((mul << 6) & 0x3F00) }

  function SampleAdded(mul: bv16, sample: bool): bv16 { if sample then mul + 65 else mul }

  function OutputAdded(mul: bv16, output: bool): bv16 { if output then mul + 0x0200 else mul }

  lemma KeptFits(x: bv16)
    requires x <= 127
    ensures Kept(x) <= 190
  {
  }

  lemma UnpackFits(w: bv16)
    ensures SevenBits(Unpack(w))
  {
  }

  /** No carry leaves the lower byte. */
  lemma BothKeptApart(w: bv16)
    ensures var f := Unpack(w); BothKept(w) == Join(Kept(f.second), Kept(f.first))
  {
  }

  lemma SampleApart(hi: bv16, lo: bv16, sample: bool)
    requires lo <= 190 && hi <= 190
    ensures SampleAdded(Join(hi, lo), sample) == Join(hi, WithSample(lo, sample)) && WithSample(lo, sample) <= 255
  {
  }

  /** Nor the upper one. */
  lemma FirstApart(hi: bv16, lo: bv16)
    requires lo <= 255 && hi <= 190
    ensures FirstAdded(Join(hi, lo)) == Join(WithQuarter(hi, lo), lo) && WithQuarter(hi, lo) <= 253
  {
  }

  lemma OutputApart(hi: bv16, lo: bv16, output: bool)
    requires lo <= 255 && hi <= 253
    ensures OutputAdded(Join(hi, lo), output) == Join(WithOutput(hi, output), lo) && WithOutput(hi, output) <= 255
  {
  }

  lemma SumIsBoth(w: bv16, sample: bool)
    ensures var f := Unpack(w);
      && OutputAdded(FirstAdded(SampleAdded(BothKept(w), sample)), f.output) == Join(Second(f, sample), First(f,
          sample))
      && First(f, sample) <= 255 && Second(f, sample) <= 255
  {
    hide Join, Unpack, BothKept, SampleAdded, FirstAdded, OutputAdded, Kept, WithSample, WithQuarter, WithOutput;
    var f := Unpack(w);
    UnpackFits(w);
    BothKeptApart(w);
    KeptFits(f.first);
    KeptFits(f.second);
    SampleApart(Kept(f.second), Kept(f.first), sample);
    FirstApart(Kept(f.second), First(f, sample));
    OutputApart(WithQuarter(Kept(f.second), First(f, sample)), First(f, sample), f.output);
  }

  lemma OutputBit(w: bv16)
    ensures Unpack(w).output == (w & OUTPUT_MASK != 0)
  {
  }

  /** The Schmitt trigger on the word. */
  function Written(t: Thresholds, mul: bv16, output: bool): bv16 {
    if output then if mul >> 8 < t.falling then CHANGE_MASK else (mul & FILTERS) | OUTPUT_MASK
    else if mul >> 8 > t.rising then FILTERS | CHANGE_MASK | OUTPUT_MASK else mul & FILTERS
  }

  lemma UpperByte(hi: bv16, lo: bv16)
    requires lo <= 255 && hi <= 255
    ensures Join(hi, lo) >> 8 == hi
  {
  }

  lemma Repacked(hi: bv16, lo: bv16)
    requires lo <= 255 && hi <= 255
    ensures Unpack(Join(hi, lo) & FILTERS) == Filter(lo >> 1, hi >> 1, false, false)
    ensures Unpack((Join(hi, lo) & FILTERS) | OUTPUT_MASK) == Filter(lo >> 1, hi >> 1, true, false)
  {
  }

  lemma Saturated()
    ensures Unpack(CHANGE_MASK) == Rest(false, true) && Unpack(FILTERS | CHANGE_MASK | OUTPUT_MASK) == Rest(true, true)
  {
  }

  lemma WrittenRight(t: Thresholds, hi: bv16, lo: bv16, output: bool)
    requires lo <= 255 && hi <= 255
    ensures Unpack(Written(t, Join(hi, lo), output)) == Triggered(t, hi, lo, output)
  {
    hide Join, Unpack;
    UpperByte(hi, lo);
    Repacked(hi, lo);
    Saturated();
  }

  lemma Unmarked(w: bv16)
    ensures Unpack(w & !CHANGE_MASK) == Unpack(w).(changed := false)
  {
  }

  class DebounceFilter {
    var filter: bv16
    var risingThreshhold: bv8
    var fallingThreshhold: bv8

    ghost function Value(): Filter
      reads this
    {
      Unpack(filter)
    }

    function Limits(): Thresholds
      reads this
    {
      Thresholds(risingThreshhold as bv16, fallingThreshhold as bv16)
    }

    constructor (initialState: bool)
      ensures Value() == Rest(initialState, false) && Limits() == DEFAULT
    {
      risingThreshhold, fallingThreshhold := 0x90, 0x70;
      filter := if initialState then FILTERS | OUTPUT_MASK else 0;
    }

    method Reset(state: bool)
      modifies this`filter
      ensures Value() == Rest(state, false)
    {
      if state {
        filter := FILTERS | OUTPUT_MASK;
      } else {
        filter := 0;
      }
    }

    method ClearChange()
      modifies this`filter
      ensures Value() == old(Value()).(changed := false)
    {
      Unmarked(filter);
      hide Unpack;
      filter := filter & !CHANGE_MASK;
    }

    /** One sample into both filters, on the word. */
    method AddSample(sample: bool)
      modifies this`filter
      ensures Value() == Next(Limits(), old(Value()), sample)
    {
      hide Join, First, Second, Unpack, BothKept, SampleAdded, FirstAdded, OutputAdded, Triggered, Written;
      ghost var f, w := Value(), filter;
      SumIsBoth(w, sample);
      OutputBit(w);
      WrittenRight(Limits(), Second(f, sample), First(f, sample), f.output);
      var output := filter & OUTPUT_MASK != 0;
      var mul := OutputAdded(FirstAdded(SampleAdded(BothKept(filter), sample)), output);
      filter := Written(Limits(), mul, output);
    }
  }

  /** What `now` is in addSampleRateLimited: a tick of four milliseconds, in a byte. */
  function Tick(millis: nat): nat { millis % 65536 / 4 % 256 }

  /** Only the time within a turn of 1024 milliseconds matters. */
  lemma TickOf(millis: nat, turns: int, e: nat)
    requires millis == 1024 * turns + e && e < 1024
    ensures Tick(millis) == e / 4
  {
    var q, r := millis / 65536, millis % 65536;
    var j := turns - 64 * q;
    assert r == 1024 * j + e;
    Quotient(r, 4, 256 * j + e / 4, e % 4);
    Quotient(r / 4, 256, j, e / 4);
  }

  lemma TickAfter(t: nat, d: nat)
    ensures var e, f := t % 1024, d % 1024;
      && Tick(t) == e / 4
      && Tick(t + d) == if e + f < 1024 then (e + f) / 4 else (e + f - 1024) / 4
  {
    hide Tick;
    var e, f, n := t % 1024, d % 1024, t / 1024 + d / 1024;
    TickOf(t, t / 1024, e);
    if e + f < 1024 { TickOf(t + d, n, e + f); } else { TickOf(t + d, n + 1, e + f - 1024); }
  }

  /** Two calls so far apart fall into different ticks, whenever the first one comes. */
  ghost predicate AlwaysApart(d: nat) { forall t: nat :: Tick(t) != Tick(t + d) }

  /** Two calls so far apart fall into the same tick, whenever the first one comes. */
  ghost predicate NeverApart(d: nat) { forall t: nat :: Tick(t) == Tick(t + d) }

  lemma Apart(t: nat, d: nat)
    ensures 4 <= d % 1024 <= 1020 ==> Tick(t) != Tick(t + d)
    ensures d % 1024 == 0 ==> Tick(t) == Tick(t + d)
  {
    hide Tick;
    TickAfter(t, d);
  }

  /** A tick lasts four milliseconds, and 256 of them are a turn: that is the case exactly from four to
      1020 milliseconds, give or take whole turns. */
  lemma TickLasts(d: nat)
    ensures AlwaysApart(d) <==> 4 <= d % 1024 <= 1020
    ensures NeverApart(d) <==> d % 1024 == 0
  {
    hide Tick;
    Within(d);
    if 4 <= d % 1024 <= 1020 {
      forall t: nat ensures Tick(t) != Tick(t + d) { Apart(t, d); }
      assert Tick(0) != Tick(0 + d);
    } else if d % 1024 == 0 {
      forall t: nat ensures Tick(t) == Tick(t + d) { Apart(t, d); }
      assert Tick(0) == Tick(0 + d);
    } else {
      assert (Tick(0) == Tick(0 + d) && Tick(3) != Tick(3 + d)) || (Tick(0) != Tick(0 + d) && Tick(3) == Tick(3 + d));
    }
  }

  lemma Within(d: nat)
    ensures d % 1024 < 4 ==> Tick(0) == Tick(0 + d)
    ensures d % 1024 > 1020 ==> Tick(3) == Tick(3 + d)
    ensures 0 < d % 1024 < 4 ==> Tick(3) != Tick(3 + d)
    ensures d % 1024 > 1020 ==> Tick(0) != Tick(0 + d)
  {
    hide Tick;
    TickAfter(0, d);
    TickAfter(3, d);
  }

  /** A filter and the tick of its last sample. */
  datatype Limited = Limited(filter: Filter, recent: nat)

  /** addSampleRateLimited */
  function NextLimited(t: Thresholds, l: Limited, millis: nat, sample: bool): Limited {
    Limited(if Tick(millis) == l.recent then l.filter.(changed := false) else Next(t, l.filter, sample), Tick(millis))
  }

  /** stateChanged is true if and only if this call has changed the output, whether it took its sample or not. */
  lemma MarksChanges(t: Thresholds, l: Limited, millis: nat, sample: bool)
    ensures var l' := NextLimited(t, l, millis, sample); l'.filter.changed <==> l'.filter.output != l.filter.output
  {
    hide Tick, First, Second;
  }

  lemma SameTick(first: nat, second: nat)
    ensures first / 4 == second / 4 ==> Tick(first) == Tick(second)
  {
    hide Tick;
    TickAfter(first, 0);
    TickAfter(second, 0);
    FourthsOfTurn(first);
    FourthsOfTurn(second);
  }

  lemma FourthsOfTurn(t: nat)
    ensures t % 1024 / 4 == t / 4 % 256
  {
    var n, e := t / 1024, t % 1024;
    Quotient(t, 4, 256 * n + e / 4, e % 4);
    Quotient(t / 4, 256, n, e / 4);
  }

  /** After one call, a second one takes its sample if it comes from 4 to 1020 milliseconds later; within
      the same four milliseconds it takes none. */
  lemma SecondCall(t: Thresholds, l: Limited, first: nat, second: nat, s1: bool, s2: bool)
    requires first <= second
    ensures var l1 := NextLimited(t, l, first, s1);
      var l2 := NextLimited(t, l1, second, s2);
      && (4 <= second - first <= 1020 ==> l2.filter == Next(t, l1.filter, s2))
      && (second / 4 == first / 4 ==> l2.filter == l1.filter.(changed := false))
  {
    hide Next, Tick;
    Apart(first, second - first);
    SameTick(first, second);
  }

  /** At most one sample a tick. */
  class DebounceFilter4ms {
    const base: DebounceFilter
    var mostRecent4ms: nat

    constructor (initialState: bool, mostRecent4ms: nat)
      ensures base.Value() == Rest(initialState, false) && base.Limits() == DEFAULT && fresh(base)
      ensures this.mostRecent4ms == mostRecent4ms
    {
      base := new DebounceFilter(initialState);
      this.mostRecent4ms := mostRecent4ms;
    }

    method AddSampleRateLimited(millis: nat, sample: bool)
      modifies this`mostRecent4ms, base`filter
      ensures Limited(base.Value(), mostRecent4ms) ==
              NextLimited(base.Limits(), old(Limited(base.Value(), mostRecent4ms)), millis, sample)
    {
      var now := Tick(millis);
      if now == mostRecent4ms {
        base.ClearChange();
      } else {
        base.AddSample(sample);
        mostRecent4ms := now;
      }
    }
  }
}
