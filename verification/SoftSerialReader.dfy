/**
 Reading while bytes come in: as long as the reader keeps up, what `read` returns and what is
 still in the ring are together the bytes written at the other end, in order and without limit.
 */
module SoftSerialReader {
  import opened Basics
  import opened BitBytes
  import opened ByteRing
  import opened SoftSerialRx
  import opened SoftSerialLine
  import opened SoftSerialLink
  import opened SoftSerialEndToEnd

  // ---------- the ring does not matter to the receiver ----------

  function Emptied(st: Rx): Rx { st.(buffer := []) }

  function Blank(w: World): World { w.(rx := Emptied(w.rx)) }

  /** At most one byte joins the ring. */
  function Gained(buffer: seq<Byte>, stored: seq<Byte>): seq<Byte> {
    if stored == [] then buffer else Stored(buffer, RX_BUFFER_SIZE, stored[0])
  }

  /** What a step does with an empty ring, it does with any: the byte it stores, if any, joins. */
  ghost predicate Alike(after: Rx, afterEmpty: Rx, buffer: seq<Byte>) {
    |afterEmpty.buffer| <= 1 && after == afterEmpty.(buffer := Gained(buffer, afterEmpty.buffer))
  }

  lemma CompleteAlike(st: Rx, byte: Byte)
    ensures Alike(Complete(st, byte), Complete(Emptied(st), byte), st.buffer)
    ensures Complete(Emptied(st), byte).buffer == [byte]
  {
  }

  lemma {:induction false} LoopAlike(st: Rx, ticks: nat, capture: nat, byte: Byte, target: int, state: nat)
    requires state < 9
    ensures Alike(CaptureLoop(st, ticks, capture, byte, target, state),
                  CaptureLoop(Emptied(st), ticks, capture, byte, target, state), st.buffer)
    decreases 9 - state
  {
    if (capture - target) % WRAP > 65535 - ticks {
    } else if state + 1 >= 9 {
      CompleteAlike(st, Shift(byte, st.bit));
    } else {
      LoopAlike(st, ticks, capture, Shift(byte, st.bit), (target + ticks) % WRAP, state + 1);
    }
  }

  lemma CaptureAlike(st: Rx, ticks: nat, stop: nat, capture: nat)
    requires st.state < 9
    ensures Alike(Capture(st, ticks, stop, capture), Capture(Emptied(st), ticks, stop, capture), st.buffer)
  {
    if st.state > 0 {
      LoopAlike(st.(bit := !st.bit, rising := !st.bit), ticks, capture, st.byte, st.target, st.state);
    }
  }

  lemma SettleAlike(w: World)
    requires w.rx.state < 9
    ensures Alike(Settle(w).rx, Settle(Blank(w)).rx, w.rx.buffer) && Settle(w).armedAt == Settle(Blank(w)).armedAt
    ensures Blank(Settle(w)) == Blank(Settle(Blank(w)))
    ensures w.rx.armed ==> !Settle(w).rx.armed && Settle(w).rx.state == 0 && !Settle(w).rx.bit
  {
    if w.rx.armed { CompleteAlike(w.rx, Pad(w.rx.byte, !w.rx.bit, 9 - w.rx.state)); }
  }

  /** A level change when no timeout is due before it. */
  lemma QuietAlike(w: World, ticks: nat, e: Edge)
    requires w.rx.state < 9 && (w.rx.armed ==> e.time <= NextMatch(w.armedAt, w.rx.compareB))
    ensures Alike(Hear(w, ticks, e).rx, Hear(Blank(w), ticks, e).rx, w.rx.buffer)
    ensures Hear(w, ticks, e).armedAt == Hear(Blank(w), ticks, e).armedAt
  {
    CaptureAlike(w.rx, ticks, StopTicks(ticks), e.time % WRAP);
  }

  /** A timeout that is due before a level change may as well come at once. */
  lemma DueFirst(w: World, ticks: nat, e: Edge)
    requires w.rx.state < 9 && w.rx.armed && NextMatch(w.armedAt, w.rx.compareB) < e.time
    ensures Settle(w).rx.state < 9 && Hear(w, ticks, e) == Hear(Settle(w), ticks, e)
  {
    SettleAlike(w);
  }

  /** At rest a level change stores nothing. */
  lemma RestStoresNothing(w: World, ticks: nat, e: Edge)
    requires w.rx.state == 0 && !w.rx.bit && !w.rx.armed
    ensures Hear(w, ticks, e).rx.buffer == w.rx.buffer
  {
  }

  lemma HearAlike(w: World, ticks: nat, e: Edge)
    requires w.rx.state < 9
    ensures Alike(Hear(w, ticks, e).rx, Hear(Blank(w), ticks, e).rx, w.rx.buffer)
    ensures Blank(Hear(w, ticks, e)) == Blank(Hear(Blank(w), ticks, e))
  {
    hide Hear, Settle;
    if w.rx.armed && NextMatch(w.armedAt, w.rx.compareB) < e.time {
      DueFirst(w, ticks, e);
      DueFirst(Blank(w), ticks, e);
      SettleAlike(w);
      QuietAlike(Settle(w), ticks, e);
      QuietAlike(Settle(Blank(w)), ticks, e);
      RestStoresNothing(Settle(w), ticks, e);
      RestStoresNothing(Settle(Blank(w)), ticks, e);
    } else {
      QuietAlike(w, ticks, e);
    }
  }

  // ---------- the bytes received ----------

  /** What level changes store, one by one. */
  function LogOf(w: World, ticks: nat, edges: seq<Edge>): seq<Byte>
    requires w.rx.state < 9
    decreases |edges|
  {
    if edges == [] then []
    else Hear(Blank(w), ticks, edges[0]).rx.buffer + LogOf(Hear(w, ticks, edges[0]), ticks, edges[1..])
  }

  /** What a timeout stores. */
  function Pending(w: World): seq<Byte>
    requires w.rx.state < 9
  {
    Settle(Blank(w)).rx.buffer
  }

  /** What level changes and a last timeout store. */
  function Received(w: World, ticks: nat, edges: seq<Edge>): seq<Byte>
    requires w.rx.state < 9
  {
    LogOf(w, ticks, edges) + Pending(HearAll(w, ticks, edges))
  }

  lemma ReceivedNext(w: World, ticks: nat, edges: seq<Edge>)
    requires w.rx.state < 9 && edges != []
    ensures Received(w, ticks, edges) ==
            Hear(Blank(w), ticks, edges[0]).rx.buffer + Received(Hear(w, ticks, edges[0]), ticks, edges[1..])
  {
    var w1 := Hear(w, ticks, edges[0]);
    Assoc(Hear(Blank(w), ticks, edges[0]).rx.buffer, LogOf(w1, ticks, edges[1..]), Pending(HearAll(w1, ticks,
        edges[1..])));
  }

  lemma {:induction false} SameReceived(w: World, v: World, ticks: nat, edges: seq<Edge>)
    requires w.rx.state < 9 && Blank(w) == Blank(v)
    ensures Received(w, ticks, edges) == Received(v, ticks, edges)
    decreases |edges|
  {
    assert v.rx.state == Blank(v).rx.state == w.rx.state;
    if edges != [] {
      ReceivedNext(w, ticks, edges);
      ReceivedNext(v, ticks, edges);
      HearAlike(w, ticks, edges[0]);
      HearAlike(v, ticks, edges[0]);
      SameReceived(Hear(w, ticks, edges[0]), Hear(v, ticks, edges[0]), ticks, edges[1..]);
    }
  }

  /** A timeout due before the next level change may come first. */
  lemma SettledReceived(w: World, ticks: nat, edges: seq<Edge>)
    requires w.rx.state < 9
    requires w.rx.armed && edges != [] ==> NextMatch(w.armedAt, w.rx.compareB) < edges[0].time
    ensures Settle(w).rx.state < 9 && Received(w, ticks, edges) == Pending(w) + Received(Settle(w), ticks, edges)
  {
    hide Hear;
    SettleAlike(w);
    if !w.rx.armed {
      assert Pending(w) == [];
    } else if edges == [] {
      assert Pending(Settle(w)) == [];
    } else {
      SettledBefore(w, ticks, edges);
    }
  }

  lemma SettledBefore(w: World, ticks: nat, edges: seq<Edge>)
    requires w.rx.state < 9 && w.rx.armed && edges != []
    requires NextMatch(w.armedAt, w.rx.compareB) < edges[0].time
    ensures Settle(w).rx.state < 9 && Received(w, ticks, edges) == Pending(w) + Received(Settle(w), ticks, edges)
  {
    hide Hear, HearAll, Settle, NextMatch, Received, LogOf;
    var e := edges[0];
    SettleAlike(w);
    ReceivedNext(w, ticks, edges);
    ReceivedNext(Settle(w), ticks, edges);
    DueFirst(w, ticks, e);
    DueFirst(Blank(w), ticks, e);
    RestStoresNothing(Settle(Blank(w)), ticks, e);
    RestStoresNothing(Blank(Settle(w)), ticks, e);
  }

  // ---------- a stream of frames ----------

  lemma {:induction false} StoredAllConcat(buffer: seq<Byte>, a: seq<Byte>, b: seq<Byte>)
    ensures StoredAll(buffer, a + b) == StoredAll(StoredAll(buffer, a), b)
    decreases |a|
  {
    if a == [] {
      assert a + b == b;
    } else {
      assert (a + b)[1..] == a[1..] + b;
      StoredAllConcat(Stored(buffer, RX_BUFFER_SIZE, a[0]), a[1..], b);
    }
  }

  lemma GainedIsStored(buffer: seq<Byte>, stored: seq<Byte>)
    requires |stored| <= 1
    ensures Gained(buffer, stored) == StoredAll(buffer, stored)
  {
    if stored != [] { assert StoredAll(Gained(buffer, stored), stored[1..]) == Gained(buffer, stored); }
  }

  /** The ring holds what has been stored. */
  lemma {:induction false} HeldAll(w: World, ticks: nat, edges: seq<Edge>)
    requires w.rx.state < 9
    ensures HearAll(w, ticks, edges).rx.buffer == StoredAll(w.rx.buffer, LogOf(w, ticks, edges))
    decreases |edges|
  {
    if edges != [] {
      var w1, stored := Hear(w, ticks, edges[0]), Hear(Blank(w), ticks, edges[0]).rx.buffer;
      HearAlike(w, ticks, edges[0]);
      GainedIsStored(w.rx.buffer, stored);
      HeldAll(w1, ticks, edges[1..]);
      StoredAllConcat(w.rx.buffer, stored, LogOf(w1, ticks, edges[1..]));
    }
  }

  lemma {:induction false} StoredGrows(buffer: seq<Byte>, bytes: seq<Byte>)
    ensures buffer <= StoredAll(buffer, bytes)
    decreases |bytes|
  {
    if bytes != [] { StoredGrows(Stored(buffer, RX_BUFFER_SIZE, bytes[0]), bytes[1..]); }
  }

  lemma OnlyOne(bytes: seq<Byte>, b: Byte)
    requires StoredAll([], bytes) == [b]
    ensures bytes == [b]
  {
    assert [] + [bytes[0]] == [bytes[0]];
    if |bytes| > 1 {
      assert StoredAll([], bytes) == StoredAll([bytes[0]], bytes[1..]);
      assert bytes[1..] != [] && Stored([bytes[0]], RX_BUFFER_SIZE, bytes[1..][0]) == [bytes[0], bytes[1]];
      StoredGrows([bytes[0], bytes[1]], bytes[1..][1..]);
    } else {
      assert StoredAll([bytes[0]], bytes[1..]) == [bytes[0]];
    }
  }

  /** The changes of one frame store exactly its byte. */
  lemma FrameReceived(w: World, f: Frame, ticks: nat)
    requires ticks < MAX_COUNTS_PER_BIT && Steady(f, ticks) && Idle(w) && w.rx.buffer == []
    ensures Received(w, ticks, EdgesFrom(f, ticks, 0)) == [f.byte]
  {
    var edges := EdgesFrom(f, ticks, 0);
    var w1 := HearAll(w, ticks, edges);
    HearFrame(w, f, ticks);
    HeldAll(w, ticks, edges);
    SettleAlike(w1);
    GainedIsStored(w1.rx.buffer, Pending(w1));
    StoredAllConcat([], LogOf(w, ticks, edges), Pending(w1));
    assert Stored([], RX_BUFFER_SIZE, f.byte) == [] + [f.byte] == [f.byte];
    OnlyOne(Received(w, ticks, edges), f.byte);
  }

  lemma {:induction false} ReceivedConcat(w: World, ticks: nat, a: seq<Edge>, b: seq<Edge>)
    requires w.rx.state < 9
    ensures Received(w, ticks, a + b) == LogOf(w, ticks, a) + Received(HearAll(w, ticks, a), ticks, b)
    decreases |a|
  {
    if a == [] {
      assert a + b == b;
    } else {
      assert (a + b)[1..] == a[1..] + b;
      var w1 := Hear(w, ticks, a[0]);
      ReceivedNext(w, ticks, a + b);
      ReceivedConcat(w1, ticks, a[1..], b);
      Assoc(Hear(Blank(w), ticks, a[0]).rx.buffer, LogOf(w1, ticks, a[1..]), Received(HearAll(w1, ticks, a[1..]),
          ticks, b));
    }
  }

  /** Level changes in the middle, and a timeout due before the ones after them. */
  lemma ReceivedApart(w: World, ticks: nat, a: seq<Edge>, b: seq<Edge>)
    requires w.rx.state < 9
    requires var w1 := HearAll(w, ticks, a);
      w1.rx.armed && b != [] ==> NextMatch(w1.armedAt, w1.rx.compareB) < b[0].time
    ensures var w1 := HearAll(w, ticks, a);
      Settle(w1).rx.state < 9 && Received(w, ticks, a + b) == Received(w, ticks, a) + Received(Settle(w1), ticks, b)
  {
    var w1 := HearAll(w, ticks, a);
    ReceivedConcat(w, ticks, a, b);
    SettledReceived(w1, ticks, b);
    Assoc(LogOf(w, ticks, a), Pending(w1), Received(Settle(w1), ticks, b));
  }

  lemma FirstEdge(f: Frame, ticks: nat, more: seq<Edge>)
    requires Steady(f, ticks)
    ensures (EdgesFrom(f, ticks, 0) + more)[0].time == f.start
  {
    assert EdgesFrom(f, ticks, 0) == [EdgeAt(f, ticks, 0)] + EdgesFrom(f, ticks, 1);
  }

  lemma PauseLongEnough(ticks: nat, start: int, next: int)
    requires 2 <= ticks && next >= start + 10 * ticks - (ticks - ticks / 2)
    ensures start + StopTicks(ticks) < next
  {
  }

  /** A frame, and level changes after a pause. */
  lemma FrameThenReceived(w: World, f: Frame, ticks: nat, b: seq<Edge>)
    requires ticks < MAX_COUNTS_PER_BIT && Steady(f, ticks) && Idle(w) && w.rx.buffer == []
    requires b != [] ==> f.start + StopTicks(ticks) < b[0].time
    ensures var a := EdgesFrom(f, ticks, 0);
      var w1 := HearAll(w, ticks, a);
      Idle(Settle(w1)) && Received(w, ticks, a + b) == [f.byte] + Received(Settle(w1), ticks, b)
  {
    hide EdgesFrom, HearAll, Received, Settle, NextMatch, StopTicks;
    FrameReceived(w, f, ticks);
    HearFrame(w, f, ticks);
    ReceivedApart(w, ticks, EdgesFrom(f, ticks, 0), b);
  }

  lemma StreamRest(frames: seq<Frame>, ticks: nat)
    requires 2 <= ticks && Stream(frames, ticks) && frames != []
    ensures Stream(frames[1..], ticks)
    ensures var b := Edges(frames[1..], ticks); b != [] ==> frames[0].start + StopTicks(ticks) < b[0].time
  {
    hide EdgesFrom, StopTicks;
    var rest := frames[1..];
    if rest != [] {
      FirstEdge(rest[0], ticks, Edges(rest[1..], ticks));
      PauseLongEnough(ticks, frames[0].start, rest[0].start);
    }
  }

  /** A stream of any length is received byte by byte. */
  lemma {:induction false} AllReceived(w: World, frames: seq<Frame>, ticks: nat)
    requires 2 <= ticks < MAX_COUNTS_PER_BIT && Idle(w) && Stream(frames, ticks)
    ensures Received(w, ticks, Edges(frames, ticks)) == BytesOf(frames)
    decreases |frames|
  {
    if frames == [] {
      assert Received(w, ticks, []) == [];
    } else {
      hide EdgesFrom, Steady, HearAll, Received, Settle, StopTicks;
      var f, rest := frames[0], frames[1..];
      var a, b := EdgesFrom(f, ticks, 0), Edges(rest, ticks);
      StreamRest(frames, ticks);
      SameReceived(w, Blank(w), ticks, a + b);
      FrameThenReceived(Blank(w), f, ticks, b);
      AllReceived(Settle(HearAll(Blank(w), ticks, a)), rest, ticks);
      BytesCons(f, rest);
      assert frames == [f] + rest;
    }
  }

  // ---------- the reader ----------

  /** A level change, or a call of read, each at its time. */
  datatype Item = Change(e: Edge) | Read(time: int)

  /** The receiver, and what read has returned so far. */
  datatype Session = Session(w: World, got: seq<Byte>)

  function TimeOf(i: Item): int { match i case Change(e) => e.time case Read(time) => time }

  ghost predicate Ordered(items: seq<Item>, from: int)
    decreases |items|
  {
    items == [] || (from <= TimeOf(items[0]) && Ordered(items[1..], TimeOf(items[0])))
  }

  function ChangesOf(items: seq<Item>): seq<Edge>
    decreases |items|
  {
    if items == [] then []
    else match items[0] case Change(e) => [e] + ChangesOf(items[1..]) case Read(_) => ChangesOf(items[1..])
  }

  /** A timeout due by then has come. */
  function DueBy(w: World, time: int): World
    requires w.rx.state < 9
  {
    if w.rx.armed && NextMatch(w.armedAt, w.rx.compareB) < time then Settle(w) else w
  }

  function Do(s: Session, ticks: nat, i: Item): (s': Session)
    requires s.w.rx.state < 9
    ensures s'.w.rx.state < 9
  {
    match i
    case Change(e) => Session(Hear(s.w, ticks, e), s.got)
    case Read(time) =>
      var w := DueBy(s.w, time);
      if w.rx.buffer == [] then Session(w, s.got)
      else Session(w.(rx := w.rx.(buffer := w.rx.buffer[1..])), s.got + [w.rx.buffer[0]])
  }

  function DoAll(s: Session, ticks: nat, items: seq<Item>): (s': Session)
    requires s.w.rx.state < 9
    ensures s'.w.rx.state < 9
    decreases |items|
  {
    if items == [] then s else DoAll(Do(s, ticks, items[0]), ticks, items[1..])
  }

  /** The reader keeps up: there is always room for one more byte. */
  ghost predicate KeepsUp(s: Session, ticks: nat, items: seq<Item>)
    requires s.w.rx.state < 9
    decreases |items|
  {
    |s.w.rx.buffer| + 1 < RX_BUFFER_SIZE && (items == [] || KeepsUp(Do(s, ticks, items[0]), ticks, items[1..]))
  }

  lemma {:induction false} ChangesLater(items: seq<Item>, from: int)
    requires Ordered(items, from) && ChangesOf(items) != []
    ensures from <= ChangesOf(items)[0].time
    decreases |items|
  {
    if items[0].Read? { ChangesLater(items[1..], TimeOf(items[0])); }
  }

  /** A read moves a byte from the ring to what has been got. */
  lemma ReadMoves(s: Session, ticks: nat, time: int, edges: seq<Edge>)
    requires s.w.rx.state < 9 && |s.w.rx.buffer| + 1 < RX_BUFFER_SIZE && (edges != [] ==> time <= edges[0].time)
    ensures var s' := Do(s, ticks, Read(time));
      s'.got + s'.w.rx.buffer + Received(s'.w, ticks, edges) == s.got + s.w.rx.buffer + Received(s.w, ticks, edges)
  {
    var w, s' := DueBy(s.w, time), Do(s, ticks, Read(time));
    assert s'.got + s'.w.rx.buffer == s.got + w.rx.buffer;
    SameReceived(s'.w, w, ticks, edges);
    if w != s.w {
      SettledReceived(s.w, ticks, edges);
      SettleAlike(s.w);
      assert |Pending(s.w)| == 1;
      assert w.rx.buffer == s.w.rx.buffer + Pending(s.w);
      Assoc(s.got, s.w.rx.buffer, Pending(s.w));
      Assoc(s.got + s.w.rx.buffer, Pending(s.w), Received(w, ticks, edges));
    }
  }

  lemma GainedWithRoom(buffer: seq<Byte>, stored: seq<Byte>)
    requires |buffer| + 1 < RX_BUFFER_SIZE && |stored| <= 1
    ensures Gained(buffer, stored) == buffer + stored
  {
  }

  lemma ChangeAdds(s: Session, ticks: nat, edges: seq<Edge>)
    requires s.w.rx.state < 9 && |s.w.rx.buffer| + 1 < RX_BUFFER_SIZE && edges != []
    ensures var s' := Do(s, ticks, Change(edges[0]));
      s'.got + s'.w.rx.buffer + Received(s'.w, ticks, edges[1..]) == s.got + s.w.rx.buffer + Received(s.w, ticks, edges)
  {
    hide Hear, Received, Stored;
    var stored, s' := Hear(Blank(s.w), ticks, edges[0]).rx.buffer, Do(s, ticks, Change(edges[0]));
    HearAlike(s.w, ticks, edges[0]);
    ReceivedNext(s.w, ticks, edges);
    GainedWithRoom(s.w.rx.buffer, stored);
    Assoc(s.got, s.w.rx.buffer, stored);
    Assoc(s.got + s.w.rx.buffer, stored, Received(s'.w, ticks, edges[1..]));
  }

  /** Whatever the interleaving of level changes and reads. */
  lemma {:induction false} SessionKeeps(s: Session, ticks: nat, items: seq<Item>, from: int)
    requires s.w.rx.state < 9 && Ordered(items, from) && KeepsUp(s, ticks, items)
    ensures var s' := DoAll(s, ticks, items);
      s'.got + Settle(s'.w).rx.buffer == s.got + s.w.rx.buffer + Received(s.w, ticks, ChangesOf(items))
    decreases |items|
  {
    if items == [] {
      SettleAlike(s.w);
      assert Settle(s.w).rx.buffer == s.w.rx.buffer + Pending(s.w);
      assert Received(s.w, ticks, []) == Pending(s.w);
      Assoc(s.got, s.w.rx.buffer, Pending(s.w));
    } else {
      var edges := ChangesOf(items);
      SessionKeeps(Do(s, ticks, items[0]), ticks, items[1..], TimeOf(items[0]));
      if items[0].Change? {
        assert edges[1..] == ChangesOf(items[1..]);
        ChangeAdds(s, ticks, edges);
      } else {
        if edges != [] { ChangesLater(items[1..], TimeOf(items[0])); }
        ReadMoves(s, ticks, items[0].time, edges);
      }
    }
  }

  /**
     From writeByte to read: with the level changes that the sender has put out less than half
     a bit off against each captured start edge, and a reader that keeps up, what has been
     read and what is still in the ring are together exactly the bytes written, in order.
   */
  lemma ReadInOrder(w: Sender, ticks: nat, events: seq<Event>, r: World, items: seq<Item>, from: int)
    requires ticks >= 2 && Finished(w, ticks, events) && Idle(r)
    requires var w' := Steps(w, ticks, events); HeardAs(w'.written, ticks, w'.edges, ChangesOf(items))
    requires Ordered(items, from) && KeepsUp(Session(r, []), ticks, items)
    ensures var s := DoAll(Session(r, []), ticks, items);
      s.got + Settle(s.w).rx.buffer == r.rx.buffer + Steps(w, ticks, events).written
  {
    var captured := RunHeard(w, ticks, events, ChangesOf(items));
    SessionKeeps(Session(r, []), ticks, items, from);
    AllReceived(r, captured, ticks);
    assert [] + r.rx.buffer == r.rx.buffer;
  }

  /** The same for captures that are each less than a quarter bit off. */
  lemma ReadNearInOrder(w: Sender, ticks: nat, events: seq<Event>, error: int, r: World, items: seq<Item>, from: int)
    requires Finished(w, ticks, events) && Idle(r)
    requires 0 <= 2 * error < ticks / 2 && Near(ChangesOf(items), Steps(w, ticks, events).edges, error)
    requires Ordered(items, from) && KeepsUp(Session(r, []), ticks, items)
    ensures var s := DoAll(Session(r, []), ticks, items);
      s.got + Settle(s.w).rx.buffer == r.rx.buffer + Steps(w, ticks, events).written
  {
    RunNearHeard(w, ticks, events, ChangesOf(items), error);
    ReadInOrder(w, ticks, events, r, items, from);
  }
}
