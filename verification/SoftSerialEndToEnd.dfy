/**
 From one program's writeByte to another's read: the bytes written come out of the receive
 ring, although every captured timestamp may be off and both timers wrap.
 */
module SoftSerialEndToEnd {
  import opened Basics
  import opened BitBytes
  import opened ByteRing
  import opened SoftSerialRx
  import opened SoftSerialLine
  import opened SoftSerialLink

  /** The same level changes, each later by d, up to `early` less or `late` more. */
  ghost predicate Drift(heard: seq<Edge>, sent: seq<Edge>, d: int, early: int, late: int) {
    |heard| == |sent| &&
    forall i :: 0 <= i < |sent| ==>
      heard[i].rising == sent[i].rising && -early <= heard[i].time - sent[i].time - d <= late
  }

  /** The same level changes, each captured at most `error` ticks early or late. */
  ghost predicate Near(heard: seq<Edge>, sent: seq<Edge>, error: int) { Drift(heard, sent, 0, error, error) }

  /** How many level changes the frame of a byte has from bit time k on. */
  function ChangesFrom(b: Byte, k: nat): nat
    requires k <= 10
    decreases 10 - k, b
  {
    if k == 10 then 0 else ChangesFrom(b, k + 1) + if Changes(b, k) then 1 else 0
  }

  /** The level changes of one frame, each of them less than half a bit off the start edge as it was heard. */
  ghost predicate FrameHeard(sent: seq<Edge>, heard: seq<Edge>, ticks: nat) {
    sent != [] && heard != [] && Drift(heard, sent, heard[0].time - sent[0].time, ticks - ticks / 2, ticks / 2 - 1)
  }

  /**
     The level changes `sent` for these bytes as they are heard: no frame's changes are half
     a bit or more off its own start edge, and no start edge comes more than half a bit too
     early after the one before. Clocks may drift apart from frame to frame without limit.
   */
  ghost predicate HeardAs(bytes: seq<Byte>, ticks: nat, sent: seq<Edge>, heard: seq<Edge>)
    decreases |bytes|
  {
    if bytes == [] then sent == heard == []
    else
      var n := ChangesFrom(bytes[0], 0);
      && n <= |sent| && n <= |heard| && FrameHeard(sent[..n], heard[..n], ticks)
      && (n < |sent| && n < |heard| ==>
            heard[n].time - heard[0].time >= sent[n].time - sent[0].time - (ticks - ticks / 2))
      && HeardAs(bytes[1..], ticks, sent[n..], heard[n..])
  }

  // ---------- reading the captured changes as a frame ----------

  /** How far each change from bit time k on is off the grid that begins at `base`. */
  function JitterFrom(b: Byte, ticks: nat, k: nat, heard: seq<Edge>, base: int): (jitter: seq<int>)
    requires k <= 10
    ensures |jitter| == 10 - k
    decreases 10 - k, heard
  {
    if k == 10 then []
    else if Changes(b, k) && heard != [] then
      [heard[0].time - base - Bits(k, ticks)] + JitterFrom(b, ticks, k + 1, heard[1..], base)
    else [0] + JitterFrom(b, ticks, k + 1, heard, base)
  }

  lemma {:induction false} CountChanges(f: Frame, ticks: nat, k: nat)
    requires |f.jitter| == 10 && k <= 10
    ensures |EdgesFrom(f, ticks, k)| == ChangesFrom(f.byte, k)
    decreases 10 - k
  {
    if k < 10 { CountChanges(f, ticks, k + 1); }
  }

  /** The jitter of a change at bit time k. */
  lemma JitterHere(f: Frame, g: Frame, ticks: nat, k: nat, heard: seq<Edge>, early: int, late: int)
    requires k < 10 && f == Ideal(f.start, f.byte) && g.byte == f.byte && |g.jitter| == 10 && Changes(f.byte, k)
    requires Drift(heard, EdgesFrom(f, ticks, k), g.start - f.start, early, late)
    requires g.jitter[k..] == JitterFrom(f.byte, ticks, k, heard, g.start)
    ensures heard != [] && Drift(heard[1..], EdgesFrom(f, ticks, k + 1), g.start - f.start, early, late)
    ensures -early <= g.jitter[k] <= late && EdgeAt(g, ticks, k) == heard[0]
    ensures g.jitter[k + 1..] == JitterFrom(f.byte, ticks, k + 1, heard[1..], g.start)
  {
    hide Level, Bits;
    assert g.jitter[k + 1..] == g.jitter[k..][1..] && g.jitter[k] == g.jitter[k..][0];
    DriftTail(heard, EdgeAt(f, ticks, k), EdgesFrom(f, ticks, k + 1), g.start - f.start, early, late);
  }

  /** Read against a frame g whose jitter is that, the captured changes are exactly those of g,
      and their jitter is their drift against g's start. */
  lemma {:induction false} JitterExplains(f: Frame, g: Frame, ticks: nat, k: nat, heard: seq<Edge>,
                                            early: int, late: int)
    requires early >= 0 && late >= 0 && k <= 10 && f == Ideal(f.start, f.byte) && g.byte == f.byte && |g.jitter| == 10
    requires Drift(heard, EdgesFrom(f, ticks, k), g.start - f.start, early, late)
    requires g.jitter[k..] == JitterFrom(f.byte, ticks, k, heard, g.start)
    ensures EdgesFrom(g, ticks, k) == heard
    ensures forall j :: k <= j < 10 ==> -early <= g.jitter[j] <= late
    decreases 10 - k
  {
    if k < 10 {
      hide Level, Bits, Drift;
      assert g.jitter[k + 1..] == g.jitter[k..][1..] && g.jitter[k] == g.jitter[k..][0];
      if Changes(f.byte, k) {
        JitterHere(f, g, ticks, k, heard, early, late);
        JitterExplains(f, g, ticks, k + 1, heard[1..], early, late);
        assert heard == [heard[0]] + heard[1..];
      } else {
        JitterExplains(f, g, ticks, k + 1, heard, early, late);
      }
    }
  }

  lemma DriftTail(heard: seq<Edge>, e: Edge, sent: seq<Edge>, d: int, early: int, late: int)
    requires Drift(heard, [e] + sent, d, early, late)
    ensures |heard| > 0 && Drift(heard[1..], sent, d, early, late)
    ensures heard[0].rising == e.rising && -early <= heard[0].time - e.time - d <= late
  {
    assert forall i :: 0 <= i < |sent| ==> ([e] + sent)[i + 1] == sent[i];
    assert ([e] + sent)[0] == e;
  }

  /** One frame as it was captured. */
  function Captured(f: Frame, ticks: nat, heard: seq<Edge>): Frame
    requires heard != []
  {
    Frame(heard[0].time, f.byte, JitterFrom(f.byte, ticks, 0, heard, heard[0].time))
  }

  lemma CapturedFrame(f: Frame, ticks: nat, heard: seq<Edge>)
    requires ticks >= 2 && f == Ideal(f.start, f.byte) && FrameHeard(EdgesFrom(f, ticks, 0), heard, ticks)
    ensures Steady(Captured(f, ticks, heard), ticks) && EdgesFrom(Captured(f, ticks, heard), ticks, 0) == heard
    ensures Captured(f, ticks, heard).start == heard[0].time && Captured(f, ticks, heard).byte == f.byte
  {
    var g := Captured(f, ticks, heard);
    assert EdgesFrom(f, ticks, 0)[0] == EdgeAt(f, ticks, 0);
    assert g.jitter[0..] == g.jitter;
    JitterExplains(f, g, ticks, 0, heard, ticks - ticks / 2, ticks / 2 - 1);
  }

  /** One more frame before a captured stream. */
  lemma StreamCons(g: Frame, others: seq<Frame>, ticks: nat)
    requires Steady(g, ticks) && Stream(others, ticks)
    requires others != [] ==> others[0].start >= g.start + 10 * ticks - (ticks - ticks / 2)
    ensures Stream([g] + others, ticks)
  {
    var all := [g] + others;
    forall i | 0 < i < |all| ensures all[i].start >= all[i - 1].start + 10 * ticks - (ticks - ticks / 2) {
      if i > 1 { assert all[i] == others[i - 1] && all[i - 1] == others[i - 2]; }
    }
  }

  lemma EdgesCons(g: Frame, others: seq<Frame>, ticks: nat)
    requires forall f :: f in [g] + others ==> |f.jitter| == 10
    ensures Edges([g] + others, ticks) == EdgesFrom(g, ticks, 0) + Edges(others, ticks)
  {
    assert ([g] + others)[1..] == others;
  }

  lemma BytesCons(g: Frame, others: seq<Frame>)
    ensures BytesOf([g] + others) == [g.byte] + BytesOf(others)
  {
  }

  lemma Split<T>(a: seq<T>, b: seq<T>, n: nat)
    requires n == |a| > 0
    ensures (a + b)[..n] == a && (a + b)[n..] == b && (a + b)[0] == a[0] && (b != [] ==> (a + b)[n] == b[0])
  {
  }

  /** The level changes of the first frame, and of the others. */
  lemma FirstFrame(frames: seq<Frame>, ticks: nat)
    requires OnGrid(frames) && frames != []
    ensures var f, sent, n := frames[0], Edges(frames, ticks), ChangesFrom(frames[0].byte, 0);
      && f == Ideal(f.start, f.byte) && 0 < n <= |sent| && sent[..n] == EdgesFrom(f, ticks, 0)
      && sent[n..] == Edges(frames[1..], ticks) && sent[0].time == f.start
      && (|frames| > 1 <==> n < |sent|) && (|frames| > 1 ==> sent[n].time == frames[1].start)
  {
    hide EdgesFrom, ChangesFrom;
    var f, rest := frames[0], frames[1..];
    assert f == Ideal(f.start, f.byte);
    CountChanges(f, ticks, 0);
    StartEdgeFirst(f, ticks);
    if rest != [] {
      assert rest[0] == frames[1] == Ideal(rest[0].start, rest[0].byte);
      StartEdgeFirst(rest[0], ticks);
      Split(EdgesFrom(rest[0], ticks, 0), Edges(rest[1..], ticks), |EdgesFrom(rest[0], ticks, 0)|);
    }
    Split(EdgesFrom(f, ticks, 0), Edges(rest, ticks), |EdgesFrom(f, ticks, 0)|);
  }

  lemma BytesRest(frames: seq<Frame>)
    requires frames != []
    ensures BytesOf(frames)[0] == frames[0].byte && BytesOf(frames)[1..] == BytesOf(frames[1..])
  {
  }

  lemma StartEdgeFirst(f: Frame, ticks: nat)
    requires f == Ideal(f.start, f.byte)
    ensures EdgesFrom(f, ticks, 0) != [] && EdgesFrom(f, ticks, 0)[0] == Edge(f.start, false)
  {
  }

  /** Frames that do not overlap, heard like this, are a stream that the receiver understands: it
      begins with the first change heard, and its changes and bytes are those heard and sent. */
  lemma {:induction false} HeardStream(frames: seq<Frame>, ticks: nat, heard: seq<Edge>) returns (captured: seq<Frame>)
    requires ticks >= 2 && OnGrid(frames) && Apart(frames, ticks)
    requires HeardAs(BytesOf(frames), ticks, Edges(frames, ticks), heard)
    ensures Stream(captured, ticks) && Edges(captured, ticks) == heard && BytesOf(captured) == BytesOf(frames)
    ensures |captured| == |frames| && (frames != [] ==> heard != [] && captured[0].start == heard[0].time)
    decreases |frames|
  {
    hide EdgesFrom, ChangesFrom, Captured, Bits;
    if frames == [] {
      captured := [];
    } else {
      var f, n := frames[0], ChangesFrom(frames[0].byte, 0);
      FirstFrame(frames, ticks);
      BytesRest(frames);
      CapturedFrame(f, ticks, heard[..n]);
      var g := Captured(f, ticks, heard[..n]);
      var others := HeardStream(frames[1..], ticks, heard[n..]);
      if others != [] { StartsApart(frames, ticks); }
      captured := [g] + others;
      StreamCons(g, others, ticks);
      EdgesCons(g, others, ticks);
      BytesCons(g, others);
      assert heard == heard[..n] + heard[n..];
      assert BytesOf(frames) == [f.byte] + BytesOf(frames[1..]);
    }
  }

  lemma StartsApart(frames: seq<Frame>, ticks: nat)
    requires Apart(frames, ticks) && |frames| > 1
    ensures frames[1].start >= frames[0].start + 10 * ticks
  {
    assert Follows(frames[0].start, frames[1].start, ticks);
    BitsIsProduct(10, ticks);
  }

  /** Captures less than a quarter bit off are of this kind. */
  lemma {:induction false} NearHeard(frames: seq<Frame>, ticks: nat, heard: seq<Edge>, error: int)
    requires OnGrid(frames) && 0 <= 2 * error < ticks / 2 && Near(heard, Edges(frames, ticks), error)
    ensures HeardAs(BytesOf(frames), ticks, Edges(frames, ticks), heard)
    decreases |frames|
  {
    if frames != [] {
      var sent, n := Edges(frames, ticks), ChangesFrom(frames[0].byte, 0);
      FirstFrame(frames, ticks);
      BytesRest(frames);
      NearHeard(frames[1..], ticks, heard[n..], error);
    }
  }

  // ---------- the whole way ----------

  /** A run of the sender that began as `init` leaves it and has finished. */
  ghost predicate Finished(w: Sender, ticks: nat, events: seq<Event>) {
    ticks < MAX_COUNTS_PER_BIT && Fresh(w) && Possible(w, ticks, events) && Steps(w, ticks, events).tx.state == 0
  }

  /** The level changes that a finished run has put out, heard in this way, are a stream of its bytes. */
  lemma RunHeard(w: Sender, ticks: nat, events: seq<Event>, heard: seq<Edge>) returns (captured: seq<Frame>)
    requires ticks >= 2 && Finished(w, ticks, events)
    requires var w' := Steps(w, ticks, events); HeardAs(w'.written, ticks, w'.edges, heard)
    ensures Stream(captured, ticks) && Edges(captured, ticks) == heard
    ensures BytesOf(captured) == Steps(w, ticks, events).written
  {
    NothingLost(w, ticks, events);
    captured := HeardStream(Steps(w, ticks, events).frames, ticks, heard);
  }

  /** With every change captured less than a quarter bit off, or exactly, it is heard in this way. */
  lemma RunNearHeard(w: Sender, ticks: nat, events: seq<Event>, heard: seq<Edge>, error: int)
    requires Finished(w, ticks, events) && 0 <= 2 * error < ticks / 2
    requires Near(heard, Steps(w, ticks, events).edges, error)
    ensures var w' := Steps(w, ticks, events); HeardAs(w'.written, ticks, w'.edges, heard)
  {
    NothingLost(w, ticks, events);
    NearHeard(Steps(w, ticks, events).frames, ticks, heard, error);
  }

  /**
     Everything written arrives: whatever the interleaving of writes and interrupts at the
     sender, once it is idle, and with the level changes that it has put out less than half
     a bit off against each captured start edge, the receiver has stored the bytes written,
     in order, as far as its ring has room.
   */
  lemma DeliveredFromStart(w: Sender, ticks: nat, events: seq<Event>, heard: seq<Edge>, r: World)
    requires ticks >= 2 && Finished(w, ticks, events) && Idle(r)
    requires var w' := Steps(w, ticks, events); HeardAs(w'.written, ticks, w'.edges, heard)
    ensures var after, written := Settle(HearAll(r, ticks, heard)), Steps(w, ticks, events).written;
      && Idle(after) && after.rx.buffer == StoredAll(r.rx.buffer, written)
      && (|r.rx.buffer| + |written| < RX_BUFFER_SIZE ==> after.rx.buffer == r.rx.buffer + written)
  {
    var written := Steps(w, ticks, events).written;
    var captured := RunHeard(w, ticks, events, heard);
    StreamReceived(r, captured, ticks);
    if |r.rx.buffer| + |written| < RX_BUFFER_SIZE { RoomForAll(r.rx.buffer, written); }
  }

  /** The same for captures that are each less than a quarter bit off. */
  lemma Delivered(w: Sender, ticks: nat, events: seq<Event>, heard: seq<Edge>, error: int, r: World)
    requires Finished(w, ticks, events) && Idle(r)
    requires 0 <= 2 * error < ticks / 2 && Near(heard, Steps(w, ticks, events).edges, error)
    ensures var after, written := Settle(HearAll(r, ticks, heard)), Steps(w, ticks, events).written;
      && Idle(after) && after.rx.buffer == StoredAll(r.rx.buffer, written)
      && (|r.rx.buffer| + |written| < RX_BUFFER_SIZE ==> after.rx.buffer == r.rx.buffer + written)
  {
    RunNearHeard(w, ticks, events, heard, error);
    DeliveredFromStart(w, ticks, events, heard, r);
  }

  // ---------- the shortest bit time ----------

  /** A receiver at rest. */
  function Rest(): World {
    World(Rx(0, seq(8, _ => false), false, 0, false, 0, false, []), 0)
  }

  function Ones(): Byte { seq(8, _ => true) }

  /** What is received of one byte sent alone and exactly on time. */
  function Alone(b: Byte, ticks: nat): seq<Byte> {
    Settle(HearAll(Rest(), ticks, EdgesFrom(Ideal(100, b), ticks, 0))).rx.buffer
  }

  /** `init` accepts any bit time below its limit; the receiver works from two ticks on, not below. */
  lemma ShortestBit(ticks: nat)
    requires ticks < MAX_COUNTS_PER_BIT
    ensures (forall b: Byte :: Alone(b, ticks) == [b]) <==> ticks >= 2
  {
    if ticks >= 2 {
      forall b: Byte ensures Alone(b, ticks) == [b] {
        HearFrame(Rest(), Ideal(100, b), ticks);
      }
    } else {
      TooShort(ticks);
      assert Alone(Ones(), ticks) != [Ones()];
    }
  }

  lemma {:induction false} PadKeeps(byte: Byte, bit: bool, n: nat)
    requires n <= 7
    ensures Pad(byte, bit, n)[7 - n] == byte[7]
    decreases n
  {
    if n > 0 {
      PadKeepsAt(Shift(byte, bit), bit, n - 1, 6);
    }
  }

  lemma {:induction false} PadKeepsAt(byte: Byte, bit: bool, n: nat, i: nat)
    requires n <= i <= 7
    ensures Pad(byte, bit, n)[i - n] == byte[i]
    decreases n
  {
    if n > 0 { PadKeepsAt(Shift(byte, bit), bit, n - 1, i - 1); }
  }

  /** With no time between sampling points the loop takes all eight bits at once. */
  lemma {:induction false} LoopTakesAll(st: Rx, capture: nat, byte: Byte, state: nat)
    requires capture < WRAP && 1 <= state < 9
    ensures CaptureLoop(st, 0, capture, byte, capture, state) == Complete(st, Pad(byte, st.bit, 9 - state))
    decreases 9 - state
  {
    if state < 8 {
      LoopTakesAll(st, capture, Shift(byte, st.bit), state + 1);
    } else {
      assert Pad(Shift(byte, st.bit), st.bit, 0) == Shift(byte, st.bit);
    }
  }

  /** A capture right at a sampling point takes one bit. */
  lemma LoopTakesOne(st: Rx, ticks: nat, capture: nat, byte: Byte)
    requires 1 <= ticks && capture + ticks < WRAP
    ensures CaptureLoop(st, ticks, capture, byte, capture, 1) ==
            st.(byte := Shift(byte, st.bit), target := capture + ticks, state := 2)
  {
    var target := (capture + ticks) % WRAP;
    assert target == capture + ticks;
    assert (capture - target) % WRAP == (0 - ticks) % WRAP == WRAP - ticks;
    assert CaptureLoop(st, ticks, capture, Shift(byte, st.bit), target, 2) ==
           st.(byte := Shift(byte, st.bit), target := target, state := 2);
  }

  lemma NotOnes(b: Byte)
    requires !b[0]
    ensures [b] != [Ones()]
  {
    assert [b][0][0] != [Ones()][0][0];
  }

  /** In the first bit time the line is low, and the change to high comes too late not to be sampled as low. */
  lemma FirstBitLost(st: Rx, ticks: nat, capture: nat)
    requires ticks < 2 && st.state == 1 && st.bit && st.armed && st.target == capture < 1000 && st.buffer == []
    ensures var rx := Capture(st, ticks, StopTicks(ticks), capture);
      var after := if rx.armed then Timeout(rx) else rx;
      after.buffer != [Ones()]
  {
    var toggled := st.(bit := false, rising := false);
    var byte := Shift(st.byte, false);
    if ticks == 0 {
      LoopTakesAll(toggled, capture, st.byte, 1);
      PadKeeps(byte, false, 7);
      assert Pad(st.byte, false, 8) == Pad(byte, false, 7);
      NotOnes(Pad(byte, false, 7));
    } else {
      LoopTakesOne(toggled, ticks, capture, st.byte);
      PadKeeps(byte, true, 7);
      var rx := Capture(st, ticks, StopTicks(ticks), capture);
      assert rx == toggled.(byte := byte, target := capture + ticks, state := 2);
      NotOnes(Pad(byte, true, 7));
    }
  }

  lemma TooShort(ticks: nat)
    requires ticks < 2
    ensures Alone(Ones(), ticks) != [Ones()]
  {
    var f := Ideal(100, Ones());
    var e0, e1 := Edge(100, false), Edge(100 + ticks, true);
    assert Bits(1, ticks) == Bits(0, ticks) + ticks;
    OnesEdges(f, ticks, 2);
    assert EdgesFrom(f, ticks, 1) == [e1];
    assert EdgesFrom(f, ticks, 0) == [e0] + [e1];
    HeardTooShort(ticks, e0, e1);
  }

  lemma HeardTooShort(ticks: nat, e0: Edge, e1: Edge)
    requires ticks < 2 && e0 == Edge(100, false) && e1 == Edge(100 + ticks, true)
    ensures Settle(HearAll(Rest(), ticks, [e0] + [e1])).rx.buffer != [Ones()]
  {
    hide Hear, Settle;
    HearFirst(Rest(), ticks, e0, [e1]);
    var w := Hear(Rest(), ticks, e0);
    HearFirst(w, ticks, e1, []);
    assert [e1] + [] == [e1];
    StartSetsUp(ticks);
    ChangeTooSoon(w, ticks);
  }

  /** What the start edge sets up. */
  lemma StartSetsUp(ticks: nat)
    requires ticks < 2
    ensures SetUp(Hear(Rest(), ticks, Edge(100, false)), ticks)
  {
    MatchAhead(100, StopTicks(ticks));
  }

  ghost predicate SetUp(w: World, ticks: nat) {
    w.rx.state == 1 && w.rx.bit && w.rx.rising && w.rx.armed && w.rx.target == 100 + ticks && w.rx.buffer == [] &&
    NextMatch(w.armedAt, w.rx.compareB) == 100 + StopTicks(ticks)
  }

  lemma ChangeTooSoon(w: World, ticks: nat)
    requires ticks < 2 && SetUp(w, ticks)
    ensures Settle(Hear(w, ticks, Edge(100 + ticks, true))).rx.buffer != [Ones()]
  {
    hide Capture, Timeout, NextMatch;
    assert (100 + ticks) % WRAP == 100 + ticks;
    FirstBitLost(w.rx, ticks, 100 + ticks);
  }

  lemma {:induction false} OnesEdges(f: Frame, ticks: nat, k: nat)
    requires 2 <= k <= 10 && f == Ideal(100, Ones())
    ensures EdgesFrom(f, ticks, k) == []
    decreases 10 - k
  {
    if k < 10 { OnesEdges(f, ticks, k + 1); }
  }
}
