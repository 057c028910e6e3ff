/**
 Every transmission has sampled waveforms: the half bits of a frame merge into stretches of
 one or two, and any number of samples inside the window of each stretch will do.
 */
module ManchesterWave {
  import opened Basics
  import opened BitBytes
  import opened Manchester
  import opened ManchesterLink

  /** Two half bits of each bit differ. */
  ghost predicate Paired(h: seq<bool>) {
    |h| % 2 == 0 && forall k :: 0 <= k < |h| / 2 ==> h[2 * k] != h[2 * k + 1]
  }

  lemma PairedAppend(a: seq<bool>, b: seq<bool>)
    requires Paired(a) && Paired(b)
    ensures Paired(a + b)
  {
    var h := a + b;
    forall k | 0 <= k < |h| / 2 ensures h[2 * k] != h[2 * k + 1] {
      if k >= |a| / 2 {
        var j := k - |a| / 2;
        assert h[2 * k] == b[2 * j] && h[2 * k + 1] == b[2 * j + 1];
      }
    }
  }

  lemma {:induction false} BitsPaired(bits: seq<bool>)
    ensures Paired(BitsHalves(bits))
    decreases |bits|
  {
    if bits != [] {
      BitsPaired(bits[..|bits| - 1]);
      PairedAppend(BitsHalves(bits[..|bits| - 1]), Encode(bits[|bits| - 1]));
    }
  }

  lemma {:induction false} DataPaired(data: seq<Byte>)
    ensures Paired(DataHalves(data))
    decreases |data|
  {
    if data != [] {
      DataPaired(data[..|data| - 1]);
      BitsPaired(Xor(data[|data| - 1], DECOUPLING_MASK));
      PairedAppend(DataHalves(data[..|data| - 1]), BitsHalves(Xor(data[|data| - 1], DECOUPLING_MASK)));
    }
  }

  lemma FramePaired(data: seq<Byte>)
    ensures Paired(Frame(data)) && |Frame(data)| == 16 * |data| + 34
  {
    FrameShape(data);
    DataPaired(data);
    PairedAppend(Zeros(14), Encode(true));
    PairedAppend(Zeros(14) + Encode(true), DataHalves(data));
    PairedAppend(Zeros(14) + Encode(true) + DataHalves(data), Zeros(2));
  }

  // ---------- merging half bits ----------

  /** The stretches of constant level, not yet sampled. */
  function Merged(h: seq<bool>): (w: seq<Stretch>)
    requires |h| % 2 == 0
    ensures if h == [] then w == [] else |w| >= 2 && w[0] == Stretch(h[0], 1, 0)
    decreases |h|
  {
    if h == [] then []
    else
      var rest := Merged(h[2..]);
      if rest == [] || h[1] != h[2] then [Stretch(h[0], 1, 0), Stretch(h[1], 1, 0)] + rest
      else [Stretch(h[0], 1, 0), Stretch(h[1], 2, 0)] + rest[1..]
  }

  /** Levels alternate, and every stretch is one or two half bits long. */
  ghost predicate Alternating(w: seq<Stretch>) {
    (forall i :: 0 <= i < |w| ==> 1 <= w[i].halves <= 2) &&
    forall i :: 0 <= i < |w| - 1 ==> w[i + 1].level != w[i].level
  }

  lemma AlternatingCons(s: Stretch, w: seq<Stretch>)
    requires Alternating(w) && 1 <= s.halves <= 2 && (w != [] ==> w[0].level != s.level)
    ensures Alternating([s] + w) && Halves([s] + w) == Repeat(s.level, s.halves) + Halves(w)
  {
    var all := [s] + w;
    forall i | 0 <= i < |all| - 1 ensures all[i + 1].level != all[i].level {
      if i > 0 { assert all[i] == w[i - 1] && all[i + 1] == w[i]; }
    }
    assert all[1..] == w;
  }

  lemma PairedTail(h: seq<bool>)
    requires Paired(h) && h != []
    ensures Paired(h[2..]) && h[0] != h[1]
  {
    forall k | 0 <= k < |h[2..]| / 2 ensures h[2..][2 * k] != h[2..][2 * k + 1] {
      assert h[2..][2 * k] == h[2 * (k + 1)] && h[2..][2 * k + 1] == h[2 * (k + 1) + 1];
    }
    assert h[2 * 0] != h[2 * 0 + 1];
  }

  /** Two stretches before others. */
  lemma TwoBefore(h: seq<bool>, second: Stretch, w: seq<Stretch>)
    requires |h| >= 2 && h[0] != h[1] && second.level == h[1] && 1 <= second.halves <= 2
    requires Alternating(w) && (w != [] ==> w[0].level != second.level)
    ensures var all := [Stretch(h[0], 1, 0), second] + w;
      Alternating(all) && Halves(all) == [h[0]] + Repeat(h[1], second.halves) + Halves(w)
  {
    var first := Stretch(h[0], 1, 0);
    AlternatingCons(second, w);
    AlternatingCons(first, [second] + w);
    assert [first, second] + w == [first] + ([second] + w);
    assert Repeat(h[0], 1) == [h[0]];
    Assoc([h[0]], Repeat(h[1], second.halves), Halves(w));
  }

  /** Merging keeps the half bits. */
  lemma {:induction false} MergedRight(h: seq<bool>)
    requires Paired(h)
    ensures Alternating(Merged(h)) && Halves(Merged(h)) == h
    decreases |h|
  {
    if h != [] {
      var rest := Merged(h[2..]);
      PairedTail(h);
      MergedRight(h[2..]);
      if rest == [] || h[1] != h[2] {
        MergeApart(h, rest);
      } else {
        MergeJoined(h, rest);
      }
    }
  }

  lemma {:induction false} MergeApart(h: seq<bool>, rest: seq<Stretch>)
    requires |h| >= 2 && h[0] != h[1] && Alternating(rest) && Halves(rest) == h[2..]
    requires rest != [] ==> rest[0].level != h[1]
    ensures var w := [Stretch(h[0], 1, 0), Stretch(h[1], 1, 0)] + rest; Alternating(w) && Halves(w) == h
  {
    hide Halves, Alternating;
    TwoBefore(h, Stretch(h[1], 1, 0), rest);
    assert Repeat(h[1], 1) == [h[1]];
    assert [h[0]] + [h[1]] + h[2..] == h;
  }

  lemma {:induction false} MergeJoined(h: seq<bool>, rest: seq<Stretch>)
    requires |h| >= 4 && |h| % 2 == 0 && h[0] != h[1] && h[1] == h[2]
    requires rest == Merged(h[2..]) && Alternating(rest) && Halves(rest) == h[2..]
    ensures var w := [Stretch(h[0], 1, 0), Stretch(h[1], 2, 0)] + rest[1..]; Alternating(w) && Halves(w) == h
  {
    hide Halves, Alternating;
    MergedTail(h[2..]);
    TwoBefore(h, Stretch(h[1], 2, 0), rest[1..]);
    assert Repeat(h[1], 2) == [h[1]] + [h[2]];
    assert [h[0]] + ([h[1]] + [h[2]]) + h[2..][1..] == h;
  }

  lemma {:induction false} MergedTail(h: seq<bool>)
    requires |h| % 2 == 0 && h != [] && Alternating(Merged(h)) && Halves(Merged(h)) == h
    ensures var w := Merged(h); Alternating(w[1..]) && Halves(w[1..]) == h[1..] && w[1].level != h[0]
  {
    var w := Merged(h);
    assert Repeat(h[0], 1) == [h[0]];
    assert h == [h[0]] + Halves(w[1..]);
    forall i | 0 <= i < |w[1..]| - 1 ensures w[1..][i + 1].level != w[1..][i].level {
      assert w[1..][i + 1] == w[i + 2] && w[1..][i] == w[i + 1];
    }
  }

  // ---------- any timing inside the windows ----------

  /** How often each stretch is sampled; the last one is followed by the idle line. */
  ghost predicate InWindows(shape: seq<Stretch>, counts: seq<nat>) {
    |counts| == |shape| > 0 && counts[|counts| - 1] > 0 &&
    forall i :: 0 <= i < |shape| - 1 ==> if shape[i].halves == 1 then 5 <= counts[i] <= 8 else 9 <= counts[i] <= 16
  }

  function Timed(shape: seq<Stretch>, counts: seq<nat>): (wave: seq<Stretch>)
    requires |shape| == |counts|
    ensures |wave| == |shape|
    ensures forall i :: 0 <= i < |shape| ==> wave[i] == shape[i].(samples := counts[i])
  {
    seq(|shape|, i requires 0 <= i < |shape| => shape[i].(samples := counts[i]))
  }

  lemma {:induction false} TimedHalves(shape: seq<Stretch>, counts: seq<nat>)
    requires |shape| == |counts|
    ensures Halves(Timed(shape, counts)) == Halves(shape)
    decreases |shape|
  {
    if shape != [] {
      TimedHalves(shape[1..], counts[1..]);
      assert Timed(shape, counts)[1..] == Timed(shape[1..], counts[1..]);
    }
  }

  lemma TimedSampled(shape: seq<Stretch>, counts: seq<nat>)
    requires Alternating(shape) && InWindows(shape, counts)
    ensures Sampled(Timed(shape, counts))
  {
  }

  /** The windows leave room for every transmission. */
  lemma WindowsOpen(shape: seq<Stretch>)
    requires Alternating(shape) && shape != []
    ensures InWindows(shape, seq(|shape|, i requires 0 <= i < |shape| => 6 * shape[i].halves))
  {
  }

  /** The waveform of a transmission, sampled so many times a stretch. */
  function Transmission(sent: seq<Byte>, counts: seq<nat>): seq<Stretch>
    requires |counts| == |Shape(sent)|
  {
    Timed(Shape(sent), counts)
  }

  lemma FrameIsEven(sent: seq<Byte>)
    ensures |Frame(sent)| % 2 == 0
  {
    hide DataHalves, Zeros;
    assert |Frame(sent)| == 16 * |sent| + 34;
    Even(8 * |sent| + 17);
  }

  lemma Even(n: nat)
    ensures 2 * n % 2 == 0
  {
  }

  function Shape(sent: seq<Byte>): seq<Stretch> {
    FrameIsEven(sent);
    Merged(Frame(sent))
  }

  /** A frame's half bits merge into stretches of one or two, never three. */
  lemma ShapeOfFrame(sent: seq<Byte>)
    ensures Alternating(Shape(sent)) && Halves(Shape(sent)) == Frame(sent) && Shape(sent) != []
  {
    FramePaired(sent);
    MergedRight(Frame(sent));
  }

  /** Whatever is sent, and however each stretch is sampled inside its window: the message is
      complete if and only if enough bytes were sent, and then it is the first of them. */
  lemma Arrives(st: Rx, idle: nat, sent: seq<Byte>, counts: seq<nat>)
    requires Safe(st) && st.mode.Pre? && !st.lastSample && |sent| < 256 && InWindows(Shape(sent), counts)
    ensures var after := Run(st, Repeat(false, idle) + Samples(Transmission(sent, counts)));
      && WritesBelow(st, after)
      && (after.mode.Msg? <==> st.maxBytes <= |sent|)
      && (after.mode.Msg? ==> after.data[..st.maxBytes] == sent[..st.maxBytes])
  {
    ShapeOfFrame(sent);
    TimedSampled(Shape(sent), counts);
    TimedHalves(Shape(sent), counts);
    RoundTrip(st, idle, Transmission(sent, counts), sent);
  }

  /** And there is such a sampling of every transmission. */
  lemma CanBeSampled(sent: seq<Byte>)
    ensures exists counts :: InWindows(Shape(sent), counts)
  {
    ShapeOfFrame(sent);
    WindowsOpen(Shape(sent));
  }
}
