/**
 How far the captured times may be off: the bound under which everything is delivered is
 the exact one.
 */
module SoftSerialMargin {
  import opened Basics
  import opened BitBytes
  import opened ByteRing
  import opened SoftSerialRx
  import opened SoftSerialLine
  import opened SoftSerialTx
  import opened SoftSerialLink
  import opened SoftSerialEndToEnd

  /** This run of the sender, captured like this, reaches this receiver as it was written. */
  ghost predicate Reaches(w: Sender, ticks: nat, events: seq<Event>, heard: seq<Edge>, r: World) {
    Idle(r) && Settle(HearAll(r, ticks, heard)).rx.buffer == StoredAll(r.rx.buffer, Steps(w, ticks, events).written)
  }

  /** A finished run of the sender, with every change captured at most `error` ticks off. */
  ghost predicate Heard(w: Sender, ticks: nat, events: seq<Event>, heard: seq<Edge>, error: int) {
    Finished(w, ticks, events) && Near(heard, Steps(w, ticks, events).edges, error)
  }

  /** Every run, every capture within the error, and every idle receiver. */
  ghost predicate AlwaysDelivered(ticks: nat, error: int) {
    forall w, events, heard, r ::
      Heard(w, ticks, events, heard, error) && Idle(r) ==> Reaches(w, ticks, events, heard, r)
  }

  // ---------- one byte of ones ----------

  lemma StepsAppend(w: Sender, ticks: nat, events: seq<Event>, e: Event)
    ensures Steps(w, ticks, events + [e]) == Step(Steps(w, ticks, events), ticks, e)
    ensures Possible(w, ticks, events + [e]) <==>
            Possible(w, ticks, events) && Enabled(Steps(w, ticks, events), ticks, e)
  {
    assert (events + [e])[..|events|] == events;
  }

  function Start(): Sender {
    Sender(Tx(0, seq(8, _ => false), false, [], false, 0, Normal), 0, 0, true, [], [], [])
  }

  /** A write, the two level changes, and the end of the stop bit. */
  function OneByte(ticks: nat): seq<Event> {
    [] + [WriteByte(Ones(), 4984)] + [Match(5000)] + [Match(5000 + ticks)] + [Match(5000 + Bits(10, ticks))]
  }

  lemma {:induction false} NoChangeInOnes(k: nat)
    requires 2 <= k <= 10
    ensures NextChange(Ones(), k) == 10
    decreases 10 - k
  {
    if k < 10 { NoChangeInOnes(k + 1); }
  }

  lemma FirstChangeOfOnes()
    ensures NextChange(Ones(), 1) == 1
  {
    assert Level(Ones(), 1) && !Level(Ones(), 0);
  }

  /** The frame's start edge scheduled. */
  ghost predicate Begun(w: Sender, ticks: nat) {
    Inv(w, ticks) && w.frames == [Ideal(5000, Ones())] && w.tx.state == 1 && w.due == 5000 && w.now == 4984 &&
        w.tx.queue == []
  }

  /** The start edge out and the next change scheduled. */
  ghost predicate Changing(w: Sender, ticks: nat) {
    Inv(w, ticks) && w.frames == [Ideal(5000, Ones())] && w.tx.state == 2 && w.now == 5000 && w.tx.queue == []
  }

  /** Both changes out. */
  ghost predicate Ending(w: Sender, ticks: nat) {
    Inv(w, ticks) && w.frames == [Ideal(5000, Ones())] && w.tx.state == 11 && w.now == 5000 + ticks && w.tx.queue == []
  }

  lemma StartInv(ticks: nat)
    ensures Inv(Start(), ticks) && Fresh(Start())
  {
    assert [] + ToCome(Start(), ticks) == Edges([], ticks);
    assert BytesOf([]) + [] == [];
  }

  lemma Beginning(ticks: nat)
    ensures Begun(Step(Start(), ticks, WriteByte(Ones(), 4984)), ticks)
  {
    StartInv(ticks);
    StartKeeps(Start(), ticks, Ones(), 4984);
    Sixteen(4984);
    assert [] + [Ideal(5000, Ones())] == [Ideal(5000, Ones())];
  }

  lemma AfterStartEdge(w: Sender, ticks: nat)
    requires 1 <= ticks < MAX_COUNTS_PER_BIT && Begun(w, ticks)
    ensures Enabled(w, ticks, Match(5000)) && Changing(Step(w, ticks, Match(5000)), ticks)
  {
    FirstChangeOfOnes();
    assert Last(w) == Ideal(5000, Ones());
    MatchWithinFrame(w, ticks, 5000);
    StepWithinFrame(w, Last(w), ticks, 5000);
    NextScheduled(w.tx, Last(w), ticks, 5000);
  }

  lemma AfterChange(w: Sender, ticks: nat)
    requires 1 <= ticks < MAX_COUNTS_PER_BIT && Changing(w, ticks)
    ensures Enabled(w, ticks, Match(5000 + ticks)) && Ending(Step(w, ticks, Match(5000 + ticks)), ticks)
  {
    NoChangeInOnes(2);
    assert Last(w) == Ideal(5000, Ones());
    assert Bits(1, ticks) == Bits(0, ticks) + ticks;
    MatchAtLastChange(w, ticks, 5000 + ticks);
    StepAtLastChange(w, Last(w), ticks, 5000 + ticks);
    EndScheduled(w.tx, Last(w), ticks, 5000 + ticks);
  }

  lemma AfterStopBit(w: Sender, ticks: nat)
    requires 1 <= ticks < MAX_COUNTS_PER_BIT && Ending(w, ticks)
    ensures Enabled(w, ticks, Match(5000 + Bits(10, ticks)))
    ensures var w' := Step(w, ticks, Match(5000 + Bits(10, ticks)));
      w'.tx.state == 0 && w'.written == [Ones()] && w'.edges == [Edge(5000, false), Edge(5000 + ticks, true)]
  {
    var w' := Step(w, ticks, Match(5000 + Bits(10, ticks)));
    assert Last(w) == Ideal(5000, Ones());
    BitsMonotone(1, 10, ticks);
    BitsIsProduct(1, ticks);
    MatchAtEnd(w, ticks, 5000 + Bits(10, ticks));
    EdgesOfOnes(ticks);
    assert w'.edges + [] == w'.edges && BytesOf(w'.frames) + [] == BytesOf(w'.frames);
    assert BytesOf([Ideal(5000, Ones())]) == [Ones()];
  }

  lemma EdgesOfOnes(ticks: nat)
    ensures Edges([Ideal(5000, Ones())], ticks) == [Edge(5000, false), Edge(5000 + ticks, true)]
  {
    var f := Ideal(5000, Ones());
    assert Bits(1, ticks) == Bits(0, ticks) + ticks;
    NoFurtherEdges(f, ticks, 2);
    assert EdgesFrom(f, ticks, 1) == [Edge(5000 + ticks, true)];
    assert EdgesFrom(f, ticks, 0) == [Edge(5000, false)] + [Edge(5000 + ticks, true)];
    assert [f][1..] == [];
  }

  lemma {:induction false} NoFurtherEdges(f: Frame, ticks: nat, k: nat)
    requires 2 <= k <= 10 && f == Ideal(f.start, Ones())
    ensures EdgesFrom(f, ticks, k) == []
    decreases 10 - k
  {
    if k < 10 { NoFurtherEdges(f, ticks, k + 1); }
  }

  lemma OneByteSent(ticks: nat)
    requires 1 <= ticks < MAX_COUNTS_PER_BIT
    ensures Fresh(Start()) && Possible(Start(), ticks, OneByte(ticks))
    ensures var w := Steps(Start(), ticks, OneByte(ticks));
      w.tx.state == 0 && w.written == [Ones()] && w.edges == [Edge(5000, false), Edge(5000 + ticks, true)]
  {
    hide Step, Inv, Bits;
    var e1, e2 := [] + [WriteByte(Ones(), 4984)], [] + [WriteByte(Ones(), 4984)] + [Match(5000)];
    StartInv(ticks);
    StepsAppend(Start(), ticks, [], WriteByte(Ones(), 4984));
    Beginning(ticks);
    StepsAppend(Start(), ticks, e1, Match(5000));
    AfterStartEdge(Steps(Start(), ticks, e1), ticks);
    StepsAppend(Start(), ticks, e2, Match(5000 + ticks));
    AfterChange(Steps(Start(), ticks, e2), ticks);
    StepsAppend(Start(), ticks, e2 + [Match(5000 + ticks)], Match(5000 + Bits(10, ticks)));
    AfterStopBit(Steps(Start(), ticks, e2 + [Match(5000 + ticks)]), ticks);
  }

  // ---------- captured too late ----------

  /** The least error that is too large: twice it is at least half a bit. */
  function TooMuch(ticks: nat): nat { (ticks / 2 + 1) / 2 }

  /** The start edge early, the change to high late. */
  function Late(ticks: nat): seq<Edge> {
    [Edge(5000 - TooMuch(ticks), false)] + [Edge(5000 + ticks + TooMuch(ticks), true)]
  }

  lemma TooMuchIs(ticks: nat)
    ensures ticks / 2 <= 2 * TooMuch(ticks) <= ticks / 2 + 1
  {
  }

  lemma OneBit(byte: Byte, ticks: nat)
    ensures Bits(2 - 1, ticks) == ticks && Pad(byte, false, 2 - 1) == Shift(byte, false)
  {
    assert Bits(1, ticks) == Bits(0, ticks) + ticks;
    assert Pad(byte, false, 1) == Pad(Shift(byte, false), false, 0);
  }

  /** The change comes after the sampling point of the first bit, which is taken as low. */
  lemma LateSampled(st: Rx, ticks: nat, target: nat, t: nat)
    requires 1 <= ticks < MAX_COUNTS_PER_BIT && target <= t < WRAP && t <= target + 1 && t < target + ticks
    requires st.state == 1 && st.bit && st.target == target
    ensures Capture(st, ticks, StopTicks(ticks), t) ==
            st.(bit := false, rising := false, byte := Shift(st.byte, false), target := (target + ticks) % WRAP,
                state := 2)
  {
    var toggled := st.(bit := false, rising := false);
    OneBit(st.byte, ticks);
    LoopTakes(toggled, ticks, t, st.byte, target, 1, 2);
    assert t % WRAP == t && target % WRAP == target;
    assert Capture(st, ticks, StopTicks(ticks), t) == CaptureLoop(toggled, ticks, t, st.byte, target, 1);
  }

  /** What the start edge sets up. */
  lemma StartHeard(ticks: nat, c: nat)
    requires 1 <= ticks < MAX_COUNTS_PER_BIT && c <= 5000
    ensures var w := Hear(Rest(), ticks, Edge(c, false));
      && w.rx.state == 1 && w.rx.bit && w.rx.rising && w.rx.armed && w.rx.buffer == []
      && w.rx.target == c + ticks + ticks / 2 && NextMatch(w.armedAt, w.rx.compareB) == c + StopTicks(ticks)
  {
    MatchAhead(c, StopTicks(ticks));
  }

  lemma LateHeard(w: World, ticks: nat, c: nat, t: nat)
    requires 1 <= ticks < MAX_COUNTS_PER_BIT && c <= 5000 && t == c + ticks + 2 * TooMuch(ticks)
    requires w.rx.state == 1 && w.rx.bit && w.rx.rising && w.rx.armed && w.rx.buffer == []
    requires w.rx.target == c + ticks + ticks / 2 && NextMatch(w.armedAt, w.rx.compareB) == c + StopTicks(ticks)
    ensures var w' := Hear(w, ticks, Edge(t, true));
      && w'.rx == w.rx.(bit := false, rising := false, byte := Shift(w.rx.byte, false),
                        target := (w.rx.target + ticks) % WRAP, state := 2)
  {
    hide TooMuch, Capture;
    TooMuchIs(ticks);
    InTime(ticks, t - c);
    assert t % WRAP == t;
    LateSampled(w.rx, ticks, w.rx.target, t);
  }

  lemma InTime(ticks: nat, d: nat)
    requires 1 <= ticks && d <= ticks + ticks / 2 + 1
    ensures d <= StopTicks(ticks)
  {
  }

  lemma LateMisread(ticks: nat)
    requires 1 <= ticks < MAX_COUNTS_PER_BIT
    ensures Settle(HearAll(Rest(), ticks, Late(ticks))).rx.buffer != [Ones()]
  {
    hide Hear, TooMuch;
    TooMuchIs(ticks);
    var c, t := 5000 - TooMuch(ticks), 5000 + ticks + TooMuch(ticks);
    var e0, e1 := Edge(c, false), Edge(t, true);
    var w := Hear(Rest(), ticks, e0);
    StartHeard(ticks, c);
    LateHeard(w, ticks, c, t);
    HearFirst(Rest(), ticks, e0, [e1]);
    HearFirst(w, ticks, e1, []);
    assert [e1] + [] == [e1];
    var byte := Shift(w.rx.byte, false);
    PadKeeps(byte, true, 7);
    NotOnes(Pad(byte, true, 7));
  }

  /** Everything is delivered, whatever is sent and whenever each change is captured within the
      error, if and only if twice the error is less than half a bit. */
  lemma ExactMargin(ticks: nat, error: int)
    requires 1 <= ticks < MAX_COUNTS_PER_BIT && error >= 0
    ensures AlwaysDelivered(ticks, error) <==> 2 * error < ticks / 2
  {
    if 2 * error < ticks / 2 {
      forall w, events, heard, r | Heard(w, ticks, events, heard, error) && Idle(r)
        ensures Reaches(w, ticks, events, heard, r)
      {
        Delivered(w, ticks, events, heard, error, r);
      }
    } else {
      OneByteSent(ticks);
      LateMisread(ticks);
      assert Heard(Start(), ticks, OneByte(ticks), Late(ticks), error) && Idle(Rest());
      assert StoredAll([], [Ones()]) == [Ones()] by { RoomForAll([], [Ones()]); }
      assert !Reaches(Start(), ticks, OneByte(ticks), Late(ticks), Rest());
    }
  }
}
