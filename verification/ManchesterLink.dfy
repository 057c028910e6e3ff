/**
 From the transmitter's levels to the receiver's buffer: any sampling of the line in which
 single runs last 5 to 8 samples and double runs 9 to 16 is decoded to the bytes sent.
 */
module ManchesterLink {
  import opened Basics
  import opened BitBytes
  import opened Manchester

  // ---------- sampled waveforms ----------

  /** A stretch of constant level: how many half bits it stands for, how often it was sampled. */
  datatype Stretch = Stretch(level: bool, halves: nat, samples: nat)

  function Repeat(level: bool, n: nat): (s: seq<bool>)
    ensures |s| == n && forall i :: 0 <= i < n ==> s[i] == level
  {
    seq(n, _ => level)
  }

  /** The half bits a waveform stands for. */
  function Halves(wave: seq<Stretch>): seq<bool> {
    if wave == [] then [] else Repeat(wave[0].level, wave[0].halves) + Halves(wave[1..])
  }

  /** The samples the interrupt sees. */
  function Samples(wave: seq<Stretch>): seq<bool> {
    if wave == [] then [] else Repeat(wave[0].level, wave[0].samples) + Samples(wave[1..])
  }

  /** Levels alternate, and every stretch but the last, which is the idle line after the
      frame, is sampled within the window of its length. */
  ghost predicate Sampled(wave: seq<Stretch>) {
    |wave| > 0 && wave[|wave| - 1].halves > 0 && wave[|wave| - 1].samples > 0 &&
    forall i :: 0 <= i < |wave| - 1 ==>
      && wave[i + 1].level != wave[i].level
      && ((wave[i].halves == 1 && 5 <= wave[i].samples <= 8) || (wave[i].halves == 2 && 9 <= wave[i].samples <= 16))
  }

  /** The samples still to come once the first one of the first stretch has been seen. */
  function Rest(wave: seq<Stretch>): seq<bool>
    requires |wave| > 0 && wave[0].samples > 0
  {
    Repeat(wave[0].level, wave[0].samples - 1) + Samples(wave[1..])
  }

  // ---------- runs of samples ----------

  lemma {:induction false} RunConcat(st: Rx, a: seq<bool>, b: seq<bool>)
    ensures Run(st, a + b) == Run(Run(st, a), b)
    decreases |a|
  {
    if a == [] {
      assert a + b == b;
    } else {
      RunConcat(Tick(st, a[0]), a[1..], b);
      assert (a + b)[1..] == a[1..] + b;
    }
  }

  /** Once a message is complete the receiver ignores the line. */
  lemma {:induction false} Frozen(st: Rx, samples: seq<bool>)
    requires st.mode.Msg?
    ensures Run(st, samples) == st
    decreases |samples|
  {
    if samples != [] { Frozen(st, samples[1..]); }
  }

  /** The sample counter after n more samples; it is a byte. */
  function Counted(count: nat, n: nat): nat
    decreases n
  {
    if n == 0 then count else Counted((count + 8) % 256, n - 1)
  }

  lemma {:induction false} CountedBelowWrap(count: nat, n: nat)
    requires count + 8 * n < 256
    ensures Counted(count, n) == count + 8 * n
    decreases n
  {
    if n > 0 {
      assert (count + 8) % 256 == count + 8;
      CountedBelowWrap(count + 8, n - 1);
      assert Counted(count, n) == Counted(count + 8, n - 1);
    }
  }

  /** Samples without a level change only count. */
  lemma {:induction false} Hold(st: Rx, n: nat)
    requires st.mode.Sync? || st.mode.Data? || st.mode.Pre?
    ensures Run(st, Repeat(st.lastSample, n)) == st.(count := Counted(st.count, n))
    decreases n
  {
    var s := Repeat(st.lastSample, n);
    if n > 0 {
      assert s[1..] == Repeat(st.lastSample, n - 1);
      Hold(st.(count := (st.count + 8) % 256), n - 1);
    } else {
      assert s == [];
    }
  }

  /** A level change with the count at c after it. */
  function Edge(st: Rx, c: nat): Rx {
    var st1 := st.(count := c);
    OnEdge(st1, !st.lastSample).(lastSample := !st.lastSample)
  }

  lemma TickEdge(st: Rx, n: nat)
    requires (st.mode.Sync? || st.mode.Data?) && 1 <= n <= 16
    ensures Tick(st.(count := 8 * (n - 1)), !st.lastSample) == Edge(st, 8 * n)
  {
    assert (8 * (n - 1) + 8) % 256 == 8 * n;
  }

  lemma SamplesStart(wave: seq<Stretch>)
    requires |wave| > 0 && wave[0].samples > 0
    ensures Samples(wave) == [wave[0].level] + Rest(wave)
  {
    var more := Repeat(wave[0].level, wave[0].samples - 1);
    assert Repeat(wave[0].level, wave[0].samples) == [wave[0].level] + more;
    Assoc([wave[0].level], more, Samples(wave[1..]));
  }

  lemma RunThrough(st: Rx, hold: Rx, edge: Rx, a: seq<bool>, sample: bool, rest: seq<bool>)
    requires Run(st, a) == hold && Tick(hold, sample) == edge
    ensures Run(st, a + ([sample] + rest)) == Run(edge, rest)
  {
    RunConcat(st, a, [sample] + rest);
    assert ([sample] + rest)[1..] == rest;
  }

  lemma TailSampled(wave: seq<Stretch>)
    requires Sampled(wave) && |wave| > 1
    ensures Sampled(wave[1..]) && wave[1].samples > 0 && wave[1].halves > 0
  {
    assert |wave| == 2 ==> wave[1..][0] == wave[1];
  }

  lemma RunStretch(st: Rx, n: nat, rest: seq<bool>)
    requires (st.mode.Sync? || st.mode.Data?) && st.count == 0 && 1 <= n <= 16
    ensures Run(st, Repeat(st.lastSample, n - 1) + ([!st.lastSample] + rest)) == Run(Edge(st, 8 * n), rest)
  {
    Hold(st, n - 1);
    CountedBelowWrap(0, n - 1);
    TickEdge(st, n);
    RunThrough(st, st.(count := 8 * (n - 1)), Edge(st, 8 * n), Repeat(st.lastSample, n - 1), !st.lastSample, rest);
  }

  /** A whole stretch, and the first sample of the next one, come down to one level change
      with the count at 8 per sample. */
  lemma Cross(st: Rx, wave: seq<Stretch>)
    requires st.mode.Sync? || st.mode.Data?
    requires Sampled(wave) && |wave| > 1 && st.lastSample == wave[0].level && st.count == 0
    ensures Sampled(wave[1..]) && wave[1].samples > 0
    ensures Run(st, Rest(wave)) == Run(Edge(st, 8 * wave[0].samples), Rest(wave[1..]))
  {
    hide Run, Edge, Samples;
    assert wave[1].level == !wave[0].level && 1 <= wave[0].samples <= 16;
    TailSampled(wave);
    SamplesStart(wave[1..]);
    RunStretch(st, wave[0].samples, Rest(wave[1..]));
  }

  // ---------- what the receiver collects ----------

  /** The half bits after the start pulse: the data and the two closing zeros. */
  function Stream(sent: seq<Byte>): (h: seq<bool>)
    ensures |h| == 16 * |sent| + 4
  {
    DataHalves(sent) + Zeros(2)
  }

  lemma SliceOfFront<T>(a: seq<T>, b: seq<T>, i: nat, j: nat)
    requires i <= j <= |a|
    ensures (a + b)[i..j] == a[i..j]
  {
  }

  lemma SliceOfBack<T>(a: seq<T>, b: seq<T>)
    ensures (a + b)[|a|..|a| + |b|] == b
  {
  }

  lemma {:induction false} DataAt(sent: seq<Byte>, c: nat)
    requires c < |sent|
    ensures DataHalves(sent)[16 * c..16 * c + 16] == BitsHalves(Xor(sent[c], DECOUPLING_MASK))
    decreases |sent|
  {
    var n := |sent| - 1;
    var front, last := DataHalves(sent[..n]), BitsHalves(Xor(sent[n], DECOUPLING_MASK));
    if c < n {
      DataAt(sent[..n], c);
      SliceOfFront(front, last, 16 * c, 16 * c + 16);
    } else {
      SliceOfBack(front, last);
    }
  }

  /** h carries the bytes sent, and two more zeros. */
  ghost predicate Carries(h: seq<bool>, sent: seq<Byte>) {
    |h| == 16 * |sent| + 4 &&
    forall c :: 0 <= c < |sent| ==> h[16 * c..16 * c + 16] == BitsHalves(Xor(sent[c], DECOUPLING_MASK))
  }

  lemma StreamCarries(sent: seq<Byte>)
    ensures Carries(Stream(sent), sent)
  {
    forall c | 0 <= c < |sent|
      ensures Stream(sent)[16 * c..16 * c + 16] == BitsHalves(Xor(sent[c], DECOUPLING_MASK))
    {
      DataAt(sent, c);
      SliceOfFront(DataHalves(sent), Zeros(2), 16 * c, 16 * c + 16);
    }
  }

  /** c bytes are complete and right, and r half bits of the next are in the register. */
  ghost predicate Holding(st: Rx, sent: seq<Byte>, h: seq<bool>, c: nat, r: nat) {
    c <= |sent| && r < 16 && 16 * c + r <= |h| &&
    st.curByte == c && st.halves == h[16 * c..16 * c + r] && Delivered(st, sent, c)
  }

  /** The first c bytes in the buffer, as far as it reaches, are those sent. */
  ghost predicate Delivered(st: Rx, sent: seq<Byte>, c: nat)
    requires c <= |sent|
  {
    forall i :: 0 <= i < c && i < |st.data| ==> st.data[i] == sent[i]
  }

  /** The first q half bits of h have been added. */
  ghost predicate Collected(st: Rx, sent: seq<Byte>, h: seq<bool>, q: nat) {
    Holding(st, sent, h, q / 16, q % 16)
  }

  /** Decoding undoes the encoding, and the mask undoes itself. */
  lemma DecodeEncoded(b: Byte)
    ensures Xor(Decode(BitsHalves(Xor(b, DECOUPLING_MASK))), DECOUPLING_MASK) == b
  {
    assert Decode(BitsHalves(Xor(b, DECOUPLING_MASK))) == Xor(b, DECOUPLING_MASK);
  }

  lemma AddWithinByte(st: Rx, sent: seq<Byte>, h: seq<bool>, c: nat, r: nat)
    requires Holding(st, sent, h, c, r) && r < 15 && 16 * c + r < |h|
    ensures Holding(AddManBit(st, h[16 * c + r]), sent, h, c, r + 1)
  {
  }

  /** The state once b is stored. */
  function Stored(st: Rx, b: Byte): Rx {
    st.(halves := [], curByte := st.curByte + 1,
        data := if st.curByte < |st.data| then st.data[st.curByte := b] else st.data)
  }

  /** The sixteenth half bit completes a byte. */
  lemma ByteDone(st: Rx, bit: bool, b: Byte)
    requires st.curByte < 255 && st.halves + [bit] == BitsHalves(Xor(b, DECOUPLING_MASK))
    ensures AddManBit(st, bit) == Stored(st, b)
  {
    DecodeEncoded(b);
  }

  lemma StoredHolding(st: Rx, sent: seq<Byte>, h: seq<bool>, c: nat)
    requires c < |sent| && 16 * c + 16 <= |h| && Holding(st, sent, h, c, 15)
    ensures Holding(Stored(st, sent[c]), sent, h, c + 1, 0)
  {
  }

  lemma AddLastOfByte(st: Rx, sent: seq<Byte>, h: seq<bool>, c: nat)
    requires |sent| < 256 && Carries(h, sent) && c < |sent| && Holding(st, sent, h, c, 15)
    ensures Holding(AddManBit(st, h[16 * c + 15]), sent, h, c + 1, 0)
  {
    assert st.halves + [h[16 * c + 15]] == h[16 * c..16 * c + 16];
    ByteDone(st, h[16 * c + 15], sent[c]);
    StoredHolding(st, sent, h, c);
  }

  lemma AddOne(st: Rx, sent: seq<Byte>, h: seq<bool>, q: nat)
    requires |sent| < 256 && Carries(h, sent) && Collected(st, sent, h, q) && q < |h|
    ensures Collected(AddManBit(st, h[q]), sent, h, q + 1)
  {
    var c, r := q / 16, q % 16;
    if r == 15 {
      AddLastOfByte(st, sent, h, c);
      assert (q + 1) / 16 == c + 1 && (q + 1) % 16 == 0;
    } else {
      AddWithinByte(st, sent, h, c, r);
      assert (q + 1) / 16 == c && (q + 1) % 16 == r + 1;
    }
  }

  // ---------- receiving data ----------

  lemma AddManBitKeeps(st: Rx, bit: bool)
    ensures var st' := AddManBit(st, bit);
      st'.mode == st.mode && st'.maxBytes == st.maxBytes && |st'.data| == |st.data| &&
      st'.lastSample == st.lastSample && st'.count == st.count
  {
  }

  lemma DataEdgeCases(st: Rx, c: nat)
    requires st.mode.Data? && MIN_COUNT <= c <= MAX_LONG_COUNT
    ensures var mid := Halfway(st.(count := c));
      Edge(st, c) ==
        (if !st.lastSample && mid.curByte >= st.maxBytes then mid.(mode := Msg)
         else AddManBit(mid, !st.lastSample).(count := 0)).(lastSample := !st.lastSample)
  {
  }

  /** After the first half of a double stretch, or at once, all half bits but the last are in. */
  lemma HalfwayCollected(st: Rx, sent: seq<Byte>, h: seq<bool>, q: nat, halves: nat, c: nat)
    requires |sent| < 256 && Carries(h, sent) && Collected(st, sent, h, q)
    requires (halves == 1 && 40 <= c <= 64) || (halves == 2 && 72 <= c <= 128)
    requires q + halves <= |h| && (halves == 2 ==> h[q] == st.lastSample)
    ensures var mid := Halfway(st.(count := c));
      && Collected(mid, sent, h, q + halves - 1) && mid.mode == st.mode && mid.maxBytes == st.maxBytes
      && |mid.data| == |st.data| && mid.lastSample == st.lastSample
  {
    hide AddManBit, Collected, Carries;
    AddManBitKeeps(st.(count := c), st.lastSample);
    CollectedIgnores(st, st.(count := c), sent, h, q);
    if halves == 2 {
      AddOne(st.(count := c), sent, h, q);
    }
  }

  /** One level change while receiving: the half bits of the stretch that ended are
      added, or the message is complete. */
  lemma DataStep(st: Rx, sent: seq<Byte>, h: seq<bool>, q: nat, halves: nat, c: nat)
    requires |sent| < 256 && Carries(h, sent) && st.mode.Data? && Collected(st, sent, h, q)
    requires (halves == 1 && 40 <= c <= 64) || (halves == 2 && 72 <= c <= 128)
    requires q + halves <= |h| && h[q + halves - 1] == !st.lastSample
    requires halves == 2 ==> h[q] == st.lastSample
    ensures var st' := Edge(st, c);
      && st'.maxBytes == st.maxBytes && |st'.data| == |st.data| && st'.lastSample == !st.lastSample
      && if !st.lastSample && (q + halves - 1) / 16 >= st.maxBytes
         then st'.mode.Msg? && st.maxBytes <= |sent| && Delivered(st', sent, st.maxBytes)
         else st'.mode.Data? && st'.count == 0 && Collected(st', sent, h, q + halves)
  {
    hide Edge, AddManBit, Halfway, Carries;
    var mid := Halfway(st.(count := c));
    var after := AddManBit(mid, !st.lastSample);
    DataEdgeCases(st, c);
    HalfwayCollected(st, sent, h, q, halves, c);
    AddManBitKeeps(mid, !st.lastSample);
    AddOne(mid, sent, h, q + halves - 1);
    CollectedIgnores(after, after.(count := 0, lastSample := !st.lastSample), sent, h, q + halves);
  }

  lemma CollectedIgnores(a: Rx, b: Rx, sent: seq<Byte>, h: seq<bool>, q: nat)
    requires Collected(a, sent, h, q)
    requires a.halves == b.halves && a.curByte == b.curByte && a.data == b.data
    ensures Collected(b, sent, h, q)
  {
  }

  /** The receiver's answer to a whole frame. */
  ghost predicate Answer(before: Rx, after: Rx, sent: seq<Byte>) {
    && (after.mode.Msg? <==> before.maxBytes <= |sent|)
    && (after.mode.Msg? ==> Delivered(after, sent, before.maxBytes))
  }

  lemma HalvesStart(wave: seq<Stretch>)
    requires Sampled(wave)
    ensures |Halves(wave)| >= wave[0].halves > 0
    ensures forall i :: 0 <= i < wave[0].halves ==> Halves(wave)[i] == wave[0].level
    ensures |wave| == 1 ==> |Halves(wave)| == wave[0].halves
    ensures |wave| > 1 ==> Halves(wave)[wave[0].halves..] == Halves(wave[1..]) && wave[1].halves > 0
    ensures |wave| > 1 ==> |Halves(wave)| > wave[0].halves
    ensures |wave| > 1 ==> Halves(wave)[wave[0].halves] == wave[1].level == !wave[0].level
  {
    if |wave| > 1 {
      TailSampled(wave);
    }
  }

  /** The line from the middle of the start pulse on ends low, high, low. */
  ghost predicate Ends(line: seq<bool>, n: nat) {
    |line| == n + 5 && line[n + 1] && !line[n + 2] && line[n + 3] && !line[n + 4]
  }

  lemma DataStretch(wave: seq<Stretch>, line: seq<bool>, q: nat, n: nat)
    requires Sampled(wave) && q < |line| && Halves(wave) == line[q..] && Ends(line, n)
    ensures line[q] == wave[0].level
    ensures |wave| == 1 ==> q == n + 4
    ensures |wave| > 1 ==>
      && 1 <= wave[0].halves <= 2 && q + wave[0].halves < |line| && Halves(wave[1..]) == line[q + wave[0].halves..]
      && line[q + wave[0].halves] == !wave[0].level && (wave[0].halves == 2 ==> line[q + 1] == wave[0].level)
  {
    HalvesStart(wave);
    assert forall i :: 0 <= i < |line[q..]| ==> line[q..][i] == line[q + i];
    if |wave| == 1 {
      assert q > n + 3 by {
        assert line[n + 3] != line[n + 4];
      }
    } else {
      assert line[q..][wave[0].halves..] == line[q + wave[0].halves..];
    }
  }

  /** Receiving data, with the stretch that begins with half bit q - 1 of h entered. */
  ghost predicate Receiving(st: Rx, wave: seq<Stretch>, sent: seq<Byte>, h: seq<bool>, q: nat) {
    Sampled(wave) && q <= |h| && Halves(wave) == ([true] + h)[q..] &&
    st.mode.Data? && st.count == 0 && st.lastSample == wave[0].level && Collected(st, sent, h, q) &&
    (st.maxBytes <= |sent| ==> q <= 16 * |sent| + 2)
  }

  lemma DataStretchStep(st: Rx, wave: seq<Stretch>, sent: seq<Byte>, h: seq<bool>, q: nat)
    requires |sent| < 256 && Carries(h, sent) && Ends([true] + h, 16 * |sent|)
    requires Receiving(st, wave, sent, h, q) && |wave| > 1
    ensures var st' := Edge(st, 8 * wave[0].samples);
      && Sampled(wave[1..]) && st'.maxBytes == st.maxBytes && q + wave[0].halves <= |h|
      && if st'.mode.Msg? then st.maxBytes <= |sent| && Delivered(st', sent, st.maxBytes)
         else Receiving(st', wave[1..], sent, h, q + wave[0].halves)
  {
    hide AddManBit, Halfway, OnEdge, Collected, Carries;
    var line, halves, c := [true] + h, wave[0].halves, 8 * wave[0].samples;
    DataStretch(wave, line, q, 16 * |sent|);
    TailSampled(wave);
    assert line[q + halves] == h[q + halves - 1];
    assert halves == 2 ==> line[q + 1] == h[q];
    DataStep(st, sent, h, q, halves, c);
  }

  lemma {:induction false} DataPhase(st: Rx, wave: seq<Stretch>, sent: seq<Byte>, h: seq<bool>, q: nat)
    requires |sent| < 256 && Carries(h, sent) && Ends([true] + h, 16 * |sent|)
    requires Receiving(st, wave, sent, h, q)
    ensures wave[0].samples > 0
    ensures Answer(st, Run(st, Rest(wave)), sent)
    decreases |wave|
  {
    hide AddManBit, OnEdge, Edge, Collected, Carries, Ends, Run, Halves;
    if |wave| == 1 {
      DataStretch(wave, [true] + h, q, 16 * |sent|);
      assert Samples(wave[1..]) == [];
      assert Rest(wave) == Repeat(st.lastSample, wave[0].samples - 1);
      Hold(st, wave[0].samples - 1);
    } else {
      var st' := Edge(st, 8 * wave[0].samples);
      Cross(st, wave);
      DataStretchStep(st, wave, sent, h, q);
      if st'.mode.Msg? {
        Frozen(st', Rest(wave[1..]));
      } else {
        DataPhase(st', wave[1..], sent, h, q + wave[0].halves);
      }
    }
  }

  // ---------- locking on ----------

  lemma FrameShape(sent: seq<Byte>)
    ensures |Frame(sent)| == 16 * |sent| + 34
    ensures forall i :: 0 <= i < 28 ==> Frame(sent)[i] == (i % 2 == 0)
    ensures !Frame(sent)[28] && Frame(sent)[29] && Frame(sent)[29..] == [true] + Stream(sent)
  {
    var z, e, d, t := Zeros(14), Encode(true), DataHalves(sent), Zeros(2);
    Assoc(z + e, d, t);
    Assoc(z, e, d + t);
    assert Frame(sent) == z + (e + Stream(sent));
    assert (e + Stream(sent))[1..] == [true] + Stream(sent);
    assert Frame(sent)[29..] == (e + Stream(sent))[1..];
  }

  /** The end of the line after the start pulse: low, high, low. */
  lemma StreamEnds(sent: seq<Byte>)
    ensures Ends([true] + Stream(sent), 16 * |sent|)
  {
  }

  /** Counting the first 28 regular half bits, with the stretch that begins at half bit p entered.
      The count need not be p: up to seven of them may have been missed, and up to four edges of
      something before the transmission may have been taken for them. */
  ghost predicate Locking(st: Rx, wave: seq<Stretch>, sent: seq<Byte>, p: nat) {
    Sampled(wave) && p <= 27 && p <= |Frame(sent)| && Halves(wave) == Frame(sent)[p..] &&
    st.mode.Sync? && st.count == 0 && st.lastSample == wave[0].level && p - 7 <= st.syncCount <= p + 4
  }

  /** Each of those stretches is single, except the last one, which the start pulse makes double. */
  lemma LockStretch(wave: seq<Stretch>, line: seq<bool>, p: nat)
    requires Sampled(wave) && p <= 27 && |line| > 29 && Halves(wave) == line[p..]
    requires (forall i :: 0 <= i < 28 ==> line[i] == (i % 2 == 0)) && !line[28] && line[29]
    ensures |wave| > 1 && wave[0].level == (p % 2 == 0)
    ensures wave[0].halves == (if p == 27 then 2 else 1) && Halves(wave[1..]) == line[p + wave[0].halves..]
  {
    hide Halves;
    HalvesStart(wave);
    var rest := line[p..];
    assert rest[0] == line[p] && rest[1] == line[p + 1] && rest[2] == line[p + 2];
    if p == 27 {
      assert rest[0] == rest[1] && rest[1] != rest[2];
    } else {
      assert rest[0] != rest[1];
    }
    assert |wave| > 1;
    assert rest[wave[0].halves..] == line[p + wave[0].halves..];
  }

  lemma LockStep(st: Rx, p: nat, samples: nat)
    requires st.mode.Sync? && st.count == 0 && p <= 27 && p - 7 <= st.syncCount <= p + 4
    requires st.lastSample == (p % 2 == 0)
    requires if p == 27 then 9 <= samples <= 16 else 5 <= samples <= 8
    ensures Edge(st, 8 * samples) ==
            if p == 27 then
              st.(mode := Data, halves := [], curByte := 0, syncCount := st.syncCount + 1, lastSample := true)
            else
              st.(syncCount := st.syncCount + 1, lastSample := !st.lastSample)
  {
  }

  lemma {:induction false} LockPhase(st: Rx, wave: seq<Stretch>, sent: seq<Byte>, p: nat)
    requires |sent| < 256 && Locking(st, wave, sent, p)
    ensures wave[0].samples > 0
    ensures Answer(st, Run(st, Rest(wave)), sent)
    decreases |wave|
  {
    hide Halves, Edge, Run, Samples, Frame, Stream;
    FrameShape(sent);
    LockStretch(wave, Frame(sent), p);
    LockStep(st, p, wave[0].samples);
    Cross(st, wave);
    var st' := Edge(st, 8 * wave[0].samples);
    if p == 27 {
      StreamEnds(sent);
      StreamCarries(sent);
      assert ([true] + Stream(sent))[0..] == Frame(sent)[29..];
      HalvesStart(wave[1..]);
      DataPhase(st', wave[1..], sent, Stream(sent), 0);
    } else {
      HalvesStart(wave[1..]);
      LockPhase(st', wave[1..], sent, p + 1);
    }
  }

  /** Waiting on a low line for the first high sample. */
  lemma RunIdle(st: Rx, idle: nat, rest: seq<bool>)
    requires st.mode.Pre? && !st.lastSample
    ensures Run(st, Repeat(false, idle) + ([true] + rest)) ==
            Run(st.(count := 0, syncCount := 0, mode := Sync, lastSample := true), rest)
  {
    Hold(st, idle);
    var waiting := st.(count := Counted(st.count, idle));
    var locking := waiting.(count := 0, syncCount := 0, mode := Sync, lastSample := true);
    RunThrough(st, waiting, locking, Repeat(false, idle), true, rest);
  }

  /** From a low line in PRE mode, with the first p half bits of the transmission missed. */
  lemma LateFrame(st: Rx, idle: nat, wave: seq<Stretch>, sent: seq<Byte>, p: nat)
    requires st.mode.Pre? && !st.lastSample && |sent| < 256 && p % 2 == 0 && p <= 6
    requires Sampled(wave) && p <= |Frame(sent)| && Halves(wave) == Frame(sent)[p..]
    ensures Answer(st, Run(st, Repeat(false, idle) + Samples(wave)), sent)
  {
    hide Halves, Run, Frame, Samples;
    FrameShape(sent);
    LockStretch(wave, Frame(sent), p);
    HalvesStart(wave);
    var locking := st.(count := 0, syncCount := 0, mode := Sync, lastSample := true);
    LockPhase(locking, wave, sent, p);
    SamplesStart(wave);
    RunIdle(st, idle, Rest(wave));
  }

  /**
     From a low idle line in PRE mode, any sampling of a transmission is answered: the
     message is complete exactly when at least maxBytes bytes were sent; then the buffer
     holds the first maxBytes of them, and nothing behind them has been touched.
   */
  lemma RoundTrip(st: Rx, idle: nat, wave: seq<Stretch>, sent: seq<Byte>)
    requires Safe(st) && st.mode.Pre? && !st.lastSample && |sent| < 256
    requires Sampled(wave) && Halves(wave) == Frame(sent)
    ensures var after := Run(st, Repeat(false, idle) + Samples(wave));
      && WritesBelow(st, after)
      && (after.mode.Msg? <==> st.maxBytes <= |sent|)
      && (after.mode.Msg? ==> after.data[..st.maxBytes] == sent[..st.maxBytes])
  {
    assert Frame(sent)[0..] == Frame(sent);
    LateFrame(st, idle, wave, sent, 0);
    RunSafe(st, Repeat(false, idle) + Samples(wave));
  }
}
