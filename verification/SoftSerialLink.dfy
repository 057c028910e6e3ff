/**
 The transmitter in time: any interleaving of writes and compare interrupts, the level
 changes that come out, and the receiver at the other end of the wire.
 */
module SoftSerialLink {
  import opened Basics
  import opened BitBytes
  import opened ByteRing
  import opened SoftSerialRx
  import opened SoftSerialLine
  import opened SoftSerialTx

  /** A frame exactly on its grid. */
  function Ideal(start: int, byte: Byte): Frame { Frame(start, byte, seq(10, _ => 0)) }

  /** The transmitter, its output pin, and the history: what was written, which frames
      were begun and when, and which level changes have gone out. */
  datatype Sender = Sender(tx: Tx, now: int, due: int, level: bool,
                         written: seq<Byte>, frames: seq<Frame>, edges: seq<Edge>)

  /** A write, or the compare match that is due, its interrupt served at the given time. */
  datatype Event = WriteByte(b: Byte, time: int) | Match(time: int)

  /** When an event can happen: a write once there is room, an interrupt less than one bit time late. */
  ghost predicate Enabled(w: Sender, ticks: nat, e: Event) {
    match e
    case WriteByte(_, time) => w.now <= time && |w.tx.queue| < TX_BUFFER_SIZE - 1
    case Match(time) => w.tx.enabled && w.now <= time && w.due <= time < w.due + ticks
  }

  /** The pin at a match. */
  function Driven(action: Action, level: bool): bool {
    match action case Set => true case Clear => false case Normal => level
  }

  /** An event: the hardware, then the program. A frame begins when its start edge is scheduled. */
  function Step(w: Sender, ticks: nat, e: Event): Sender {
    match e
    case WriteByte(b, time) =>
      var tx := Write(w.tx, b, time);
      var w1 := w.(tx := tx, now := time, written := w.written + [b]);
      if w.tx.state != 0 then w1
      else w1.(due := NextMatch(time, tx.compareA), frames := w.frames + [Ideal(NextMatch(time, tx.compareA), b)])
    case Match(time) =>
      var level := Driven(w.tx.action, w.level);
      var tx := CompareA(w.tx, ticks, time);
      var w1 := w.(tx := tx, now := time, level := level,
                   edges := if level != w.level then w.edges + [Edge(w.due, level)] else w.edges);
      if !tx.enabled then w1
      else
        var due := NextMatch(time, tx.compareA);
        if tx.state == 1 then w1.(due := due, frames := w.frames + [Ideal(due, tx.byte)])
        else w1.(due := due)
  }

  function Steps(w: Sender, ticks: nat, events: seq<Event>): Sender {
    if events == [] then w else Step(Steps(w, ticks, events[..|events| - 1]), ticks, events[|events| - 1])
  }

  ghost predicate Possible(w: Sender, ticks: nat, events: seq<Event>) {
    events != [] ==>
      Possible(w, ticks, events[..|events| - 1]) &&
      Enabled(Steps(w, ticks, events[..|events| - 1]), ticks, events[|events| - 1])
  }

  // ---------- the invariant ----------

  ghost predicate OnGrid(frames: seq<Frame>) {
    forall i :: 0 <= i < |frames| ==> frames[i] == Ideal(frames[i].start, frames[i].byte)
  }

  /** A frame begins exactly when the one before ends, or at least 16 ticks later. */
  ghost predicate Follows(start: int, next: int, ticks: nat) {
    var end := start + Bits(10, ticks);
    next == end || next >= end + 16
  }

  /** Frames do not overlap. */
  ghost predicate Apart(frames: seq<Frame>, ticks: nat) {
    forall i :: 0 < i < |frames| ==> Follows(frames[i - 1].start, frames[i].start, ticks)
  }

  /** The level changes of the last frame still to come. */
  function ToCome(w: Sender, ticks: nat): seq<Edge>
    requires OnGrid(w.frames)
  {
    if w.frames != [] && 1 <= w.tx.state <= 10 then EdgesFrom(w.frames[|w.frames| - 1], ticks, w.tx.state - 1) else []
  }

  /** The change at bit time k of frame f is scheduled, and the bits after it are at hand. */
  ghost predicate Scheduled(tx: Tx, f: Frame, k: nat, ticks: nat)
    requires k <= 9
  {
    tx.enabled && tx.state == k + 1 && tx.compareA == (f.start + Bits(k, ticks)) % WRAP &&
    tx.bit == Level(f.byte, k) && tx.action == (if tx.bit then Set else Clear) &&
    (k <= 8 ==> tx.byte[..8 - k] == f.byte[k..])
  }

  /** What holds in the middle of frame f. */
  ghost predicate Sending(w: Sender, f: Frame, ticks: nat) {
    var k := w.tx.state - 1;
    0 <= k <= 9 && Changes(f.byte, k) && Scheduled(w.tx, f, k, ticks) &&
    w.due == f.start + Bits(k, ticks) && w.level == !w.tx.bit
  }

  /** What has gone out, what is still to come, and what is queued add up. */
  ghost predicate History(w: Sender, ticks: nat) {
    OnGrid(w.frames) && Apart(w.frames, ticks) &&
    w.edges + ToCome(w, ticks) == Edges(w.frames, ticks) &&
    w.written == BytesOf(w.frames) + w.tx.queue && |w.tx.queue| < TX_BUFFER_SIZE
  }

  function Last(w: Sender): Frame
    requires w.frames != []
  {
    w.frames[|w.frames| - 1]
  }

  /** After the last change of frame f, waiting for the stop bit to end. */
  ghost predicate Finishing(w: Sender, f: Frame, ticks: nat) {
    w.tx.enabled && w.level && w.tx.action == Set &&
    w.due == f.start + Bits(10, ticks) && w.tx.compareA == w.due % WRAP
  }

  /** Where the transmitter is. In state 0 nothing is queued and the line is idle. */
  ghost predicate Phase(w: Sender, ticks: nat) {
    if w.tx.state == 0 then
      !w.tx.enabled && w.level && w.tx.queue == [] &&
      (w.frames != [] ==> w.now >= Last(w).start + Bits(10, ticks))
    else
      w.tx.state <= 11 && w.frames != [] &&
      if w.tx.state <= 10 then Sending(w, Last(w), ticks) else Finishing(w, Last(w), ticks)
  }

  ghost predicate Inv(w: Sender, ticks: nat) { History(w, ticks) && Phase(w, ticks) }

  lemma EdgesAppend(frames: seq<Frame>, f: Frame, ticks: nat)
    requires OnGrid(frames) && f == Ideal(f.start, f.byte)
    ensures OnGrid(frames + [f]) && Edges(frames + [f], ticks) == Edges(frames, ticks) + EdgesFrom(f, ticks, 0)
  {
    if frames == [] {
      assert (frames + [f])[1..] == [];
      assert EdgesFrom(f, ticks, 0) + [] == EdgesFrom(f, ticks, 0);
    } else {
      assert (frames + [f])[1..] == frames[1..] + [f];
      assert OnGrid(frames[1..] + [f]);
      EdgesAppend(frames[1..], f, ticks);
    }
  }

  // ---------- the interrupt's search ----------

  /** The first change after bit time k, or 10. */
  function NextChange(b: Byte, k: nat): (n: nat)
    requires k <= 10
    ensures k <= n <= 10 && (n < 10 ==> Changes(b, n))
    decreases 10 - k, b
  {
    if k == 10 then 10 else if Changes(b, k) then k else NextChange(b, k + 1)
  }

  lemma ShiftDown(byte: Byte, b: Byte, k: nat)
    requires 1 <= k <= 8 && byte[..9 - k] == b[k - 1..]
    ensures byte[0] == b[k - 1] && (byte[1..] + [false])[..8 - k] == b[k..]
  {
    assert byte[0] == byte[..9 - k][0] == b[k - 1..][0];
    assert (byte[1..] + [false])[..8 - k] == byte[..9 - k][1..];
    assert b[k..] == b[k - 1..][1..];
  }

  /** The interrupt's search has come to bit time n: a change there, or none in the frame. */
  ghost predicate Found(r: Ahead, b: Byte, n: nat, start: int, ticks: nat)
    requires n <= 10
  {
    if n < 10
    then r.Change? && r.bit == Level(b, n) && r.state == n + 1 && r.target == (start + Bits(n, ticks)) % WRAP &&
         (n <= 8 ==> r.byte[..8 - n] == b[n..])
    else r == NoChange((start + Bits(9, ticks)) % WRAP)
  }

  /** From bit time k - 1 of a frame begun at `start`, the loop finds the next change and its time. */
  lemma {:induction false} SeekFinds(ticks: nat, byte: Byte, bit: bool, k: nat, start: int, b: Byte)
    requires 1 <= k <= 10 && bit == Level(b, k - 1) && (k <= 9 ==> byte[..9 - k] == b[k - 1..])
    ensures Found(Seek(ticks, byte, bit, k, (start + Bits(k - 1, ticks)) % WRAP), b, NextChange(b, k), start, ticks)
    decreases 10 - k
  {
    if k < 10 {
      if k <= 8 { ShiftDown(byte, b, k); }
      TargetAdvances(start + Bits(k - 1, ticks), ticks);
      assert Bits(k, ticks) == Bits(k - 1, ticks) + ticks;
      if !Changes(b, k) {
        SeekFinds(ticks, byte[1..] + [false], bit, k + 1, start, b);
      }
    }
  }

  lemma {:induction false} SkipUnchanged(f: Frame, ticks: nat, k: nat)
    requires |f.jitter| == 10 && k <= 10
    ensures EdgesFrom(f, ticks, k) == EdgesFrom(f, ticks, NextChange(f.byte, k))
    decreases 10 - k
  {
    if k < 10 && !Changes(f.byte, k) { SkipUnchanged(f, ticks, k + 1); }
  }

  // ---------- every event keeps the invariant ----------

  lemma BytesAppend(frames: seq<Frame>, f: Frame)
    ensures BytesOf(frames + [f]) == BytesOf(frames) + [f.byte]
  {
  }

  /** A register set d ahead of the match being served still matches in time. */
  lemma MatchSoon(due: int, time: int, d: nat)
    requires due <= time < due + d && d < WRAP
    ensures NextMatch(time, (due + d) % WRAP) == due + d
  {
    var ahead := due + d - time;
    assert ((due + d) % WRAP - time) % WRAP == ahead % WRAP == ahead;
  }

  lemma Sixteen(time: int)
    ensures NextMatch(time, (time + 16) % WRAP) == time + 16
  {
    assert (time + 16) % WRAP == (time % WRAP + 16) % WRAP;
    MatchAhead(time, 16);
  }

  lemma TenBits(ticks: nat)
    requires ticks < MAX_COUNTS_PER_BIT
    ensures Bits(10, ticks) == 10 * ticks < WRAP
  {
    BitsIsProduct(10, ticks);
  }

  /** Beginning a frame with its start edge scheduled. */
  lemma BeginFrame(w: Sender, ticks: nat, b: Byte, due: int)
    requires OnGrid(w.frames) && Apart(w.frames, ticks) && w.edges == Edges(w.frames, ticks)
    requires w.frames != [] ==> Follows(Last(w).start, due, ticks)
    requires w.level && w.tx.state == 1 && w.tx.byte == b && !w.tx.bit && w.tx.enabled && w.tx.action == Clear
    requires w.due == due && w.tx.compareA == due % WRAP && |w.tx.queue| < TX_BUFFER_SIZE
    requires w.written == BytesOf(w.frames) + [b] + w.tx.queue
    ensures Inv(w.(frames := w.frames + [Ideal(due, b)]), ticks)
  {
    var f := Ideal(due, b);
    EdgesAppend(w.frames, f, ticks);
    BytesAppend(w.frames, f);
    assert b[0..] == b && w.tx.byte[..8] == w.tx.byte;
    var frames := w.frames + [f];
    assert frames[|frames| - 1] == f;
  }

  /** A byte written while another is being sent joins the queue. */
  lemma QueueKeeps(w: Sender, ticks: nat, b: Byte, time: int)
    requires Inv(w, ticks) && w.tx.state != 0 && |w.tx.queue| < TX_BUFFER_SIZE - 1
    ensures Inv(Step(w, ticks, WriteByte(b, time)), ticks)
  {
    Assoc(BytesOf(w.frames), w.tx.queue, [b]);
    var w' := w.(tx := w.tx.(queue := w.tx.queue + [b]), now := time, written := w.written + [b]);
    assert ToCome(w', ticks) == ToCome(w, ticks);
  }

  /** A byte written to the idle transmitter begins a frame. */
  lemma StartKeeps(w: Sender, ticks: nat, b: Byte, time: int)
    requires Inv(w, ticks) && w.tx.state == 0 && w.now <= time
    ensures Inv(Step(w, ticks, WriteByte(b, time)), ticks)
  {
    Sixteen(time);
    var w1 := w.(tx := Write(w.tx, b, time), now := time, written := w.written + [b], due := time + 16);
    assert w.edges + [] == w.edges && BytesOf(w.frames) + [] == BytesOf(w.frames);
    assert BytesOf(w.frames) + [b] + [] == BytesOf(w.frames) + [b];
    BeginFrame(w1, ticks, b, time + 16);
  }

  lemma WriteKeeps(w: Sender, ticks: nat, e: Event)
    requires Inv(w, ticks) && e.WriteByte? && Enabled(w, ticks, e)
    ensures Inv(Step(w, ticks, e), ticks)
  {
    if w.tx.state != 0 { QueueKeeps(w, ticks, e.b, e.time); } else { StartKeeps(w, ticks, e.b, e.time); }
  }

  /** The state after the hardware has acted on a match and before the interrupt has run. */
  function Acted(w: Sender): Sender {
    var level := Driven(w.tx.action, w.level);
    w.(level := level, edges := if level != w.level then w.edges + [Edge(w.due, level)] else w.edges)
  }

  /** In the middle of a frame a match puts out exactly the change that was scheduled. */
  lemma ChangeGoesOut(w: Sender, ticks: nat)
    requires Inv(w, ticks) && 1 <= w.tx.state <= 10
    ensures var f := Last(w);
      && f == Ideal(f.start, f.byte) && Acted(w).level == w.tx.bit
      && Acted(w).edges + EdgesFrom(f, ticks, w.tx.state) == Edges(w.frames, ticks)
  {
    var f, k := Last(w), w.tx.state - 1;
    assert f == Ideal(f.start, f.byte);
    assert EdgeAt(f, ticks, k) == Edge(w.due, w.tx.bit);
    Assoc(w.edges, [EdgeAt(f, ticks, k)], EdgesFrom(f, ticks, k + 1));
  }

  /** What the interrupt schedules when the frame has a further change, at bit time n. */
  lemma NextScheduled(tx: Tx, f: Frame, ticks: nat, time: int)
    requires 1 <= tx.state <= 10 && Scheduled(tx, f, tx.state - 1, ticks) && NextChange(f.byte, tx.state) < 10
    ensures var n, tx' := NextChange(f.byte, tx.state), CompareA(tx, ticks, time);
      Scheduled(tx', f, n, ticks) && tx'.queue == tx.queue
  {
    hide Seek, Level, Changes, NextChange, Bits;
    SeekFinds(ticks, tx.byte, tx.bit, tx.state, f.start, f.byte);
  }

  lemma SoonEnough(due: int, time: int, n: nat, ticks: nat)
    requires ticks < MAX_COUNTS_PER_BIT && due <= time < due + ticks && 1 <= n <= 10
    ensures NextMatch(time, (due + Bits(n, ticks)) % WRAP) == due + Bits(n, ticks)
  {
    BitsMonotone(1, n, ticks);
    BitsMonotone(n, 10, ticks);
    BitsIsProduct(1, ticks);
    TenBits(ticks);
    MatchSoon(due, time, Bits(n, ticks));
  }

  lemma WithinFrameHistory(w: Sender, w': Sender, ticks: nat)
    requires Inv(w, ticks) && 1 <= w.tx.state <= 10 && NextChange(Last(w).byte, w.tx.state) < 10
    requires w'.frames == w.frames && w'.edges == Acted(w).edges && w'.written == w.written
    requires w'.tx.queue == w.tx.queue && w'.tx.state == NextChange(Last(w).byte, w.tx.state) + 1
    ensures History(w', ticks)
  {
    ChangeGoesOut(w, ticks);
    SkipUnchanged(Last(w), ticks, w.tx.state);
  }

  lemma StepWithinFrame(w: Sender, f: Frame, ticks: nat, time: int)
    requires ticks < MAX_COUNTS_PER_BIT && 1 <= w.tx.state <= 10 && Sending(w, f, ticks)
    requires w.due <= time < w.due + ticks && NextChange(f.byte, w.tx.state) < 10
    ensures Step(w, ticks, Match(time)) == Acted(w).(
      tx := CompareA(w.tx, ticks, time), now := time, due := f.start + Bits(NextChange(f.byte, w.tx.state), ticks))
  {
    var n := NextChange(f.byte, w.tx.state);
    NextScheduled(w.tx, f, ticks, time);
    BitsBetween(w.tx.state - 1, n, ticks);
    SoonEnough(w.due, time, n - w.tx.state + 1, ticks);
  }

  lemma MatchWithinFrame(w: Sender, ticks: nat, time: int)
    requires ticks < MAX_COUNTS_PER_BIT && Inv(w, ticks) && w.due <= time < w.due + ticks
    requires 1 <= w.tx.state <= 10 && NextChange(Last(w).byte, w.tx.state) < 10
    ensures Inv(Step(w, ticks, Match(time)), ticks) && Step(w, ticks, Match(time)).frames == w.frames
  {
    hide Edges, EdgesFrom, BytesOf, Seek, OnGrid, Apart, NextMatch, Bits;
    var w' := Step(w, ticks, Match(time));
    StepWithinFrame(w, Last(w), ticks, time);
    NextScheduled(w.tx, Last(w), ticks, time);
    WithinFrameHistory(w, w', ticks);
    LevelHolds(Last(w).byte, w.tx.state);
    assert Sending(w', Last(w), ticks);
  }

  /** Between changes the level stays. */
  lemma {:induction false} LevelHolds(b: Byte, k: nat)
    requires 1 <= k <= 10
    ensures Level(b, NextChange(b, k) - 1) == Level(b, k - 1)
    decreases 10 - k
  {
    if k < 10 && !Changes(b, k) { LevelHolds(b, k + 1); }
  }

  /** After the last change of a frame nothing is to come, and the line is high. */
  lemma LastChangeOut(w: Sender, ticks: nat)
    requires Inv(w, ticks) && 1 <= w.tx.state <= 10 && NextChange(Last(w).byte, w.tx.state) == 10
    ensures Acted(w).level && w.tx.action == Set && Acted(w).edges == Edges(w.frames, ticks)
  {
    var f, s := Last(w), w.tx.state;
    ChangeGoesOut(w, ticks);
    SkipUnchanged(f, ticks, s);
    LevelHolds(f.byte, s);
    assert Acted(w).edges + [] == Acted(w).edges;
  }

  /** What the interrupt schedules then: ten bit times after the start edge. */
  lemma EndScheduled(tx: Tx, f: Frame, ticks: nat, time: int)
    requires 1 <= tx.state <= 10 && Scheduled(tx, f, tx.state - 1, ticks) && NextChange(f.byte, tx.state) == 10
    ensures var end := (f.start + Bits(10, ticks)) % WRAP;
      CompareA(tx, ticks, time) ==
      if tx.queue == [] then tx.(state := 11, compareA := end)
      else tx.(queue := tx.queue[1..], byte := tx.queue[0], bit := false, state := 1, action := Clear, compareA := end)
  {
    hide Seek, Level, Changes, NextChange;
    SeekFinds(ticks, tx.byte, tx.bit, tx.state, f.start, f.byte);
    TargetAdvances(f.start + Bits(9, ticks), ticks);
    assert Bits(10, ticks) == Bits(9, ticks) + ticks;
  }

  /** A queued byte follows on. */
  lemma FollowOn(w: Sender, ticks: nat, tx: Tx, level: bool, edges: seq<Edge>, time: int, due: int)
    requires History(w, ticks) && w.frames != [] && w.tx.queue != []
    requires edges == Edges(w.frames, ticks) && level && Follows(Last(w).start, due, ticks)
    requires tx.queue == w.tx.queue[1..] && tx.byte == w.tx.queue[0] && !tx.bit && tx.state == 1 && tx.enabled
    requires tx.action == Clear && tx.compareA == due % WRAP
    ensures Inv(Sender(tx, time, due, level, w.written, w.frames + [Ideal(due, tx.byte)], edges), ticks)
  {
    var w1 := Sender(tx, time, due, level, w.written, w.frames, edges);
    assert w.tx.queue == [tx.byte] + tx.queue;
    Assoc(BytesOf(w.frames), [tx.byte], tx.queue);
    BeginFrame(w1, ticks, tx.byte, due);
  }

  lemma StepAtLastChange(w: Sender, f: Frame, ticks: nat, time: int)
    requires ticks < MAX_COUNTS_PER_BIT && 1 <= w.tx.state <= 10 && Sending(w, f, ticks)
    requires w.due <= time < w.due + ticks && NextChange(f.byte, w.tx.state) == 10
    ensures var end, frames := f.start + Bits(10, ticks), w.frames;
      Step(w, ticks, Match(time)) == Acted(w).(
        tx := CompareA(w.tx, ticks, time), now := time, due := end,
        frames := if w.tx.queue == [] then frames else frames + [Ideal(end, w.tx.queue[0])])
  {
    EndScheduled(w.tx, f, ticks, time);
    BitsBetween(w.tx.state - 1, 10, ticks);
    SoonEnough(w.due, time, 11 - w.tx.state, ticks);
  }

  /** With nothing queued the transmitter waits for the stop bit to end. */
  lemma WaitForEnd(w: Sender, w': Sender, ticks: nat)
    requires History(w, ticks) && w.frames != [] && w'.frames == w.frames && w'.written == w.written
    requires w'.edges == Edges(w.frames, ticks) && w'.tx.queue == w.tx.queue && w'.tx.state == 11
    requires Finishing(w', Last(w), ticks)
    ensures Inv(w', ticks)
  {
    assert w'.edges + [] == w'.edges;
  }

  /** The interrupt at a frame's last change: the queue decides whether the next frame is
      scheduled at once, exactly ten bit times after this one. */
  lemma MatchAtLastChange(w: Sender, ticks: nat, time: int)
    requires ticks < MAX_COUNTS_PER_BIT && Inv(w, ticks) && w.due <= time < w.due + ticks
    requires 1 <= w.tx.state <= 10 && NextChange(Last(w).byte, w.tx.state) == 10
    ensures Inv(Step(w, ticks, Match(time)), ticks)
    ensures var w' := Step(w, ticks, Match(time));
      if w.tx.queue == [] then w'.frames == w.frames && w'.tx.state == 11
      else w'.frames == w.frames + [Ideal(Last(w).start + Bits(10, ticks), w.tx.queue[0])]
  {
    hide Edges, EdgesFrom, BytesOf, Seek, Changes, Level, OnGrid, Apart, NextMatch, Bits;
    var f, end := Last(w), Last(w).start + Bits(10, ticks);
    LastChangeOut(w, ticks);
    StepAtLastChange(w, f, ticks, time);
    EndScheduled(w.tx, f, ticks, time);
    if w.tx.queue == [] {
      WaitForEnd(w, Step(w, ticks, Match(time)), ticks);
    } else {
      FollowOn(w, ticks, CompareA(w.tx, ticks, time), true, Acted(w).edges, time, end);
    }
  }

  /** The interrupt at the end of the stop bit: stop, or begin a frame 16 ticks later. */
  lemma MatchAtEnd(w: Sender, ticks: nat, time: int)
    requires ticks < MAX_COUNTS_PER_BIT && Inv(w, ticks) && w.tx.state == 11 && w.due <= time
    ensures var w' := Step(w, ticks, Match(time));
      Inv(w', ticks) &&
      if w.tx.queue == [] then w'.frames == w.frames && w'.tx.state == 0
      else w'.frames == w.frames + [Ideal(time + 16, w.tx.queue[0])]
  {
    hide Edges, EdgesFrom, BytesOf, Changes, Level, NextMatch, Bits, OnGrid, Apart;
    assert w.edges + [] == w.edges;
    if w.tx.queue == [] {
      assert BytesOf(w.frames) + [] == BytesOf(w.frames);
    } else {
      Sixteen(time);
      FollowOn(w, ticks, CompareA(w.tx, ticks, time), true, w.edges, time, time + 16);
    }
  }

  /** Whatever happens next, the invariant is kept. */
  lemma StepKeeps(w: Sender, ticks: nat, e: Event)
    requires ticks < MAX_COUNTS_PER_BIT && Inv(w, ticks) && Enabled(w, ticks, e)
    ensures Inv(Step(w, ticks, e), ticks)
  {
    match e
    case WriteByte(_, _) => WriteKeeps(w, ticks, e);
    case Match(time) =>
      if w.tx.state == 11 { MatchAtEnd(w, ticks, time); }
      else if NextChange(Last(w).byte, w.tx.state) < 10 { MatchWithinFrame(w, ticks, time); }
      else { MatchAtLastChange(w, ticks, time); }
  }

  // ---------- whole runs ----------

  /** As `init` leaves things: the pin high, nothing written. */
  ghost predicate Fresh(w: Sender) {
    w.tx.state == 0 && w.tx.queue == [] && !w.tx.enabled && w.level && w.written == [] && w.frames == [] &&
        w.edges == []
  }

  /** Whatever the interleaving of writes and interrupts, the invariant holds all along. */
  lemma {:induction false} RunKeeps(w: Sender, ticks: nat, events: seq<Event>)
    requires ticks < MAX_COUNTS_PER_BIT && Fresh(w) && Possible(w, ticks, events)
    ensures Inv(Steps(w, ticks, events), ticks)
    decreases |events|
  {
    if events != [] {
      RunKeeps(w, ticks, events[..|events| - 1]);
      StepKeeps(Steps(w, ticks, events[..|events| - 1]), ticks, events[|events| - 1]);
    }
  }

  /**
     In any run: the bytes begun so far and the bytes queued are the bytes written, in order;
     frames never overlap; the level changes that went out are a beginning of those that
     the frames need; and when the transmitter says it is idle, everything has been sent.
   */
  lemma NothingLost(w: Sender, ticks: nat, events: seq<Event>)
    requires ticks < MAX_COUNTS_PER_BIT && Fresh(w) && Possible(w, ticks, events)
    ensures var w' := Steps(w, ticks, events);
      && OnGrid(w'.frames) && Apart(w'.frames, ticks)
      && w'.written == BytesOf(w'.frames) + w'.tx.queue
      && w'.edges <= Edges(w'.frames, ticks)
      && (w'.tx.state == 0 ==> w'.level && w'.written == BytesOf(w'.frames) && w'.edges == Edges(w'.frames, ticks))
  {
    RunKeeps(w, ticks, events);
    var w' := Steps(w, ticks, events);
    assert w'.tx.state == 0 ==> w'.edges + [] == w'.edges && BytesOf(w'.frames) + [] == BytesOf(w'.frames);
  }
}
