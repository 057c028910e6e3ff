/**
 A serial line as its level changes, and what the receiver makes of them: bytes survive
 any jitter below half a bit, and the 16-bit timer may wrap at any point.
 */
module SoftSerialLine {
  import opened Basics
  import opened BitBytes
  import opened ByteRing
  import opened SoftSerialRx

  /** The level in bit time k of a byte's frame: start bit, eight data bits, stop bit. */
  function Level(b: Byte, k: nat): bool {
    if k == 0 then false else if k <= 8 then b[k - 1] else true
  }

  /** Whether the level changes at the beginning of bit time k; before the frame the line is high. */
  predicate Changes(b: Byte, k: nat) {
    k == 0 || Level(b, k) != Level(b, k - 1)
  }

  /** n bit times. */
  function Bits(n: nat, ticks: nat): nat
    decreases n, ticks
  {
    if n == 0 then 0 else Bits(n - 1, ticks) + ticks
  }

  lemma {:induction false} BitsIsProduct(n: nat, ticks: nat)
    ensures Bits(n, ticks) == n * ticks
    decreases n
  {
    if n > 0 { BitsIsProduct(n - 1, ticks); }
  }

  lemma {:induction false} BitsMonotone(m: nat, n: nat, ticks: nat)
    requires m <= n
    ensures Bits(m, ticks) <= Bits(n, ticks)
    decreases n
  {
    if m < n { BitsMonotone(m, n - 1, ticks); }
  }

  datatype Edge = Edge(time: int, rising: bool)

  /** One byte on the line as it is captured: the time of its start edge, and how far each
      later change is off the grid that this edge sets up. */
  datatype Frame = Frame(start: int, byte: Byte, jitter: seq<int>)

  /** All jitter is below half a bit. */
  ghost predicate Steady(f: Frame, ticks: nat) {
    |f.jitter| == 10 && f.jitter[0] == 0 &&
    forall k :: 1 <= k <= 9 ==> -(ticks - ticks / 2) <= f.jitter[k] < ticks / 2
  }

  function EdgeAt(f: Frame, ticks: nat, k: nat): Edge
    requires |f.jitter| == 10 && k <= 9
  {
    Edge(f.start + Bits(k, ticks) + f.jitter[k], Level(f.byte, k))
  }

  /** The level changes of a frame from bit time k on. */
  function EdgesFrom(f: Frame, ticks: nat, k: nat): seq<Edge>
    requires |f.jitter| == 10 && k <= 10
    decreases 10 - k, ticks
  {
    if k == 10 then []
    else if Changes(f.byte, k) then [EdgeAt(f, ticks, k)] + EdgesFrom(f, ticks, k + 1)
    else EdgesFrom(f, ticks, k + 1)
  }

  // ---------- the receiver on the line ----------

  /** The receiver, and when it last set its timeout. */
  datatype World = World(rx: Rx, armedAt: int)

  function StopTicks(ticks: nat): nat { ticks * 37 / 4 }

  /** When a free-running 16-bit timer next equals the register. */
  function NextMatch(now: int, register: int): int { now + (register - now) % WRAP }

  function Settle(w: World): World
    requires w.rx.state < 9
  {
    if w.rx.armed then w.(rx := Timeout(w.rx)) else w
  }

  /** A level change on the line. A timeout due before it comes first; the capture
      hardware only notices changes in the direction it is set to. */
  function Hear(w: World, ticks: nat, e: Edge): (w': World)
    requires w.rx.state < 9
    ensures w'.rx.state < 9
  {
    var w1 := if w.rx.armed && NextMatch(w.armedAt, w.rx.compareB) < e.time then Settle(w) else w;
    if e.rising != w1.rx.rising then w1
    else
      var rx := Capture(w1.rx, ticks, StopTicks(ticks), e.time % WRAP);
      CaptureState(w1.rx, ticks, e.time % WRAP);
      World(rx, if rx.armed && !w1.rx.armed then e.time else w1.armedAt)
  }

  lemma CaptureState(st: Rx, ticks: nat, capture: nat)
    requires st.state < 9
    ensures Capture(st, ticks, StopTicks(ticks), capture).state < 9
  {
    if st.state > 0 {
      LoopState(st.(bit := !st.bit, rising := !st.bit), ticks, capture, st.byte, st.target, st.state);
    }
  }

  lemma {:induction false} LoopState(st: Rx, ticks: nat, capture: nat, byte: Byte, target: int, state: nat)
    requires state < 9
    ensures CaptureLoop(st, ticks, capture, byte, target, state).state < 9
    decreases 9 - state
  {
    if (capture - target) % WRAP <= 65535 - ticks && state + 1 < 9 {
      LoopState(st, ticks, capture, Shift(byte, st.bit), (target + ticks) % WRAP, state + 1);
    }
  }

  function HearAll(w: World, ticks: nat, edges: seq<Edge>): (w': World)
    requires w.rx.state < 9
    ensures w'.rx.state < 9
    decreases |edges|
  {
    if edges == [] then w else HearAll(Hear(w, ticks, edges[0]), ticks, edges[1..])
  }

  // ---------- 16-bit timestamps ----------

  /** The offset test tells on which side of the sampling point a capture lies, across a wrap of the timer. */
  lemma OffsetTest(capture: int, target: int, ticks: nat)
    requires ticks < WRAP && target <= capture + ticks && capture <= target + 65535 - ticks
    ensures (capture % WRAP - target % WRAP) % WRAP > 65535 - ticks <==> capture < target
  {
    var d := capture - target;
    assert (capture % WRAP - target % WRAP) % WRAP == d % WRAP;
  }

  lemma TargetAdvances(target: int, ticks: nat)
    ensures (target % WRAP + ticks) % WRAP == (target + ticks) % WRAP
  {
  }

  /** A capture between the sampling points of bits k - 1 and k takes exactly the bits before k. */
  lemma {:induction false} LoopTakes(st: Rx, ticks: nat, capture: int, byte: Byte, target: int, s: nat, k: nat)
    requires ticks < MAX_COUNTS_PER_BIT && 1 <= s <= 8 && s <= k <= 9
    requires target + Bits(k - s, ticks) <= capture + ticks && capture < target + Bits(k - s, ticks)
    ensures CaptureLoop(st, ticks, capture % WRAP, byte, target % WRAP, s) ==
            if k <= 8 then st.(byte := Pad(byte, st.bit, k - s), target := (target + Bits(k - s, ticks)) % WRAP,
              state := k)
            else Complete(st, Pad(byte, st.bit, 9 - s))
    decreases 9 - s
  {
    hide Stored;
    BitsMonotone(k - s, 8, ticks);
    BitsIsProduct(8, ticks);
    OffsetTest(capture, target, ticks);
    if s < k {
      TargetAdvances(target, ticks);
      if s < 8 {
        LoopTakes(st, ticks, capture, Shift(byte, st.bit), target + ticks, s + 1, k);
      } else {
        assert Pad(byte, st.bit, 1) == Pad(Shift(byte, st.bit), st.bit, 0);
      }
    }
  }

  // ---------- one frame ----------

  ghost predicate Idle(w: World) {
    w.rx.state == 0 && !w.rx.bit && !w.rx.rising && !w.rx.armed
  }

  /** The first n bits of b have been shifted in. */
  ghost predicate Gathered(byte: Byte, b: Byte, n: nat)
    requires n <= 8
  {
    byte[8 - n..] == b[..n]
  }

  lemma AllGathered(byte: Byte, b: Byte)
    requires Gathered(byte, b, 8)
    ensures byte == b
  {
    assert byte[0..] == byte && b[..8] == b;
  }

  lemma {:induction false} PadGathers(byte: Byte, b: Byte, n: nat, m: nat, bit: bool)
    requires n <= m <= 8 && Gathered(byte, b, n)
    requires forall j :: n <= j < m ==> b[j] == bit
    ensures Gathered(Pad(byte, bit, m - n), b, m)
    decreases m - n
  {
    if n < m {
      var next := Shift(byte, bit);
      assert next[8 - (n + 1)..] == byte[8 - n..] + [bit];
      assert b[..n + 1] == b[..n] + [b[n]];
      PadGathers(next, b, n + 1, m, bit);
    }
  }

  /** The sampling point of bit j, the data bits counted from 1. */
  function Sampling(f: Frame, ticks: nat, j: nat): int { f.start + Bits(j, ticks) + ticks / 2 }

  /** In the middle of a frame, with every level change up to bit time k dealt with: the
      bits before the last change are in, those since are all at the present level. */
  ghost predicate Mid(w: World, f: Frame, ticks: nat, k: nat) {
    var s := w.rx.state;
    1 <= s <= 8 && k <= 9 && s <= (if k == 0 then 1 else k) &&
    w.armedAt == f.start && w.rx.armed && w.rx.compareB == (f.start % WRAP + StopTicks(ticks)) % WRAP &&
    w.rx.target == Sampling(f, ticks, s) % WRAP &&
    w.rx.bit == w.rx.rising == !Level(f.byte, k) &&
    Gathered(w.rx.byte, f.byte, s - 1) &&
    forall j :: s <= j <= k ==> Level(f.byte, j) == Level(f.byte, k)
  }

  lemma StartEdge(w: World, f: Frame, ticks: nat)
    requires ticks < MAX_COUNTS_PER_BIT && Steady(f, ticks) && Idle(w)
    ensures var w' := Hear(w, ticks, EdgeAt(f, ticks, 0));
      Mid(w', f, ticks, 0) && w'.rx.buffer == w.rx.buffer
  {
    assert (f.start % WRAP + ticks + ticks / 2) % WRAP == (f.start + ticks + ticks / 2) % WRAP;
    assert Bits(1, ticks) == Bits(0, ticks) + ticks;
    assert w.rx.byte[8..] == f.byte[..0];
  }

  /** The timeout comes 9.25 bit times after the start edge. */
  lemma Deadline(w: World, f: Frame, ticks: nat, k: nat)
    requires ticks < MAX_COUNTS_PER_BIT && Mid(w, f, ticks, k)
    ensures NextMatch(w.armedAt, w.rx.compareB) == f.start + StopTicks(ticks)
  {
    MatchAhead(f.start, StopTicks(ticks));
  }

  /** A register set less than a full turn ahead matches when that time has passed. */
  lemma MatchAhead(now: int, d: nat)
    requires d < WRAP
    ensures NextMatch(now, (now % WRAP + d) % WRAP) == now + d
  {
    var q := now - now % WRAP;
    assert q % WRAP == 0;
    if now % WRAP + d < WRAP {
      assert (now % WRAP + d - now) % WRAP == (d - q) % WRAP == d;
    } else {
      assert (now % WRAP + d - WRAP - now) % WRAP == (d - WRAP - q) % WRAP == d;
    }
  }

  lemma NoChange(w: World, f: Frame, ticks: nat, k: nat)
    requires Mid(w, f, ticks, k) && k < 9 && !Changes(f.byte, k + 1)
    ensures Mid(w, f, ticks, k + 1)
  {
  }

  /** A timeout after bit 7 has begun finds the rest of the byte at the present level. */
  lemma TimeoutCompletes(w: World, f: Frame, ticks: nat, k: nat)
    requires Mid(w, f, ticks, k) && 8 <= k <= 9
    ensures Idle(Settle(w)) && Settle(w).rx.buffer == Stored(w.rx.buffer, RX_BUFFER_SIZE, f.byte)
  {
    var s, bit := w.rx.state, !w.rx.bit;
    forall j | s - 1 <= j < 8 ensures f.byte[j] == bit {
      assert Level(f.byte, j + 1) == Level(f.byte, k);
    }
    PadGathers(w.rx.byte, f.byte, s - 1, 8, bit);
    AllGathered(Pad(w.rx.byte, bit, 9 - s), f.byte);
  }

  /** A level change at bit time k takes the bits before it. */
  lemma ChangeSamples(w: World, f: Frame, ticks: nat, k: nat)
    requires ticks < MAX_COUNTS_PER_BIT && Steady(f, ticks) && Mid(w, f, ticks, k) && k < 9 && Changes(f.byte, k + 1)
    ensures var st := w.rx;
      var rx := Capture(st, ticks, StopTicks(ticks), EdgeAt(f, ticks, k + 1).time % WRAP);
      var n := k + 1 - st.state;
      rx == if k < 8
            then st.(bit := !st.bit, rising := !st.bit, byte := Pad(st.byte, !st.bit, n),
                     target := Sampling(f, ticks, k + 1) % WRAP, state := k + 1)
            else Complete(st, Pad(st.byte, !st.bit, n))
  {
    hide Gathered, Changes, Level, NextMatch, Stored, Pad, CaptureLoop;
    var st, s, c := w.rx, w.rx.state, EdgeAt(f, ticks, k + 1).time;
    BitsBetween(s, k + 1, ticks);
    LoopTakes(st.(bit := !st.bit, rising := !st.bit), ticks, c, st.byte, Sampling(f, ticks, s), s, k + 1);
  }

  lemma {:induction false} BitsBetween(m: nat, n: nat, ticks: nat)
    requires m <= n
    ensures Bits(n, ticks) == Bits(m, ticks) + Bits(n - m, ticks)
    decreases n
  {
    if m < n { BitsBetween(m, n - 1, ticks); }
  }

  lemma ChangeGathers(w: World, f: Frame, ticks: nat, k: nat)
    requires Mid(w, f, ticks, k) && k <= 8 && w.rx.state <= k + 1
    ensures Gathered(Pad(w.rx.byte, !w.rx.bit, k + 1 - w.rx.state), f.byte, k)
  {
    var s, bit := w.rx.state, !w.rx.bit;
    forall j | s - 1 <= j < k ensures f.byte[j] == bit {
      assert Level(f.byte, j + 1) == Level(f.byte, k);
    }
    PadGathers(w.rx.byte, f.byte, s - 1, k, bit);
  }

  lemma DataChange(w: World, f: Frame, ticks: nat, k: nat)
    requires ticks < MAX_COUNTS_PER_BIT && Steady(f, ticks) && Mid(w, f, ticks, k) && k < 8 && Changes(f.byte, k + 1)
    ensures var w' := Hear(w, ticks, EdgeAt(f, ticks, k + 1));
      Mid(w', f, ticks, k + 1) && w'.rx.buffer == w.rx.buffer
  {
    Deadline(w, f, ticks, k);
    BitsMonotone(k + 1, 8, ticks);
    BitsIsProduct(8, ticks);
    ChangeSamples(w, f, ticks, k);
    ChangeGathers(w, f, ticks, k);
  }

  /** The change into the stop bit may come before or after the timeout; either ends the byte. */
  lemma StopChange(w: World, f: Frame, ticks: nat)
    requires ticks < MAX_COUNTS_PER_BIT && Steady(f, ticks) && Mid(w, f, ticks, 8) && Changes(f.byte, 9)
    ensures var w' := Hear(w, ticks, EdgeAt(f, ticks, 9));
      Idle(w') && w'.rx.buffer == Stored(w.rx.buffer, RX_BUFFER_SIZE, f.byte)
  {
    Deadline(w, f, ticks, 8);
    if f.start + StopTicks(ticks) < EdgeAt(f, ticks, 9).time {
      TimeoutCompletes(w, f, ticks, 8);
    } else {
      ChangeSamples(w, f, ticks, 8);
      ChangeGathers(w, f, ticks, 8);
      AllGathered(Pad(w.rx.byte, !w.rx.bit, 9 - w.rx.state), f.byte);
    }
  }

  // ---------- whole frames ----------

  /** The frame has been heard: its byte is stored as soon as the timeout, if it is still armed, has come. */
  ghost predicate Heard(w: World, f: Frame, ticks: nat, before: seq<Byte>) {
    w.rx.state < 9 && Idle(Settle(w)) && Settle(w).rx.buffer == Stored(before, RX_BUFFER_SIZE, f.byte) &&
    (w.rx.armed ==> NextMatch(w.armedAt, w.rx.compareB) == f.start + StopTicks(ticks))
  }

  lemma {:induction false} HearRest(w: World, f: Frame, ticks: nat, k: nat)
    requires ticks < MAX_COUNTS_PER_BIT && Steady(f, ticks) && Mid(w, f, ticks, k)
    ensures Heard(HearAll(w, ticks, EdgesFrom(f, ticks, k + 1)), f, ticks, w.rx.buffer)
    decreases 9 - k
  {
    hide Hear, NextMatch, StopTicks, Level;
    if k == 9 {
      TimeoutCompletes(w, f, ticks, 9);
      Deadline(w, f, ticks, 9);
    } else if !Changes(f.byte, k + 1) {
      NoChange(w, f, ticks, k);
      HearRest(w, f, ticks, k + 1);
    } else {
      var e := EdgeAt(f, ticks, k + 1);
      var w' := Hear(w, ticks, e);
      assert ([e] + EdgesFrom(f, ticks, k + 2))[1..] == EdgesFrom(f, ticks, k + 2);
      if k < 8 {
        DataChange(w, f, ticks, k);
        HearRest(w', f, ticks, k + 1);
      } else {
        StopChange(w, f, ticks);
      }
    }
  }

  lemma HearFirst(w: World, ticks: nat, e: Edge, rest: seq<Edge>)
    requires w.rx.state < 9
    ensures HearAll(w, ticks, [e] + rest) == HearAll(Hear(w, ticks, e), ticks, rest)
  {
    assert ([e] + rest)[1..] == rest;
  }

  lemma HearFrame(w: World, f: Frame, ticks: nat)
    requires ticks < MAX_COUNTS_PER_BIT && Steady(f, ticks) && Idle(w)
    ensures Heard(HearAll(w, ticks, EdgesFrom(f, ticks, 0)), f, ticks, w.rx.buffer)
  {
    hide Hear, NextMatch, StopTicks, Settle, Level, Changes;
    StartEdge(w, f, ticks);
    var e, rest := EdgeAt(f, ticks, 0), EdgesFrom(f, ticks, 1);
    HearRest(Hear(w, ticks, e), f, ticks, 0);
    HearFirst(w, ticks, e, rest);
    FirstChange(f, ticks);
  }

  lemma FirstChange(f: Frame, ticks: nat)
    requires |f.jitter| == 10
    ensures EdgesFrom(f, ticks, 0) == [EdgeAt(f, ticks, 0)] + EdgesFrom(f, ticks, 1)
  {
    assert Changes(f.byte, 0);
  }

  // ---------- streams of frames ----------

  /** Each start edge is captured at least nine and a half bit times after the one before:
      frames of ten bits, with any pause between them, and jitter below half a bit. */
  ghost predicate Stream(frames: seq<Frame>, ticks: nat) {
    (forall i :: 0 <= i < |frames| ==> Steady(frames[i], ticks)) &&
    forall i :: 0 < i < |frames| ==>
      frames[i].start >= frames[i - 1].start + 10 * ticks - (ticks - ticks / 2)
  }

  function Edges(frames: seq<Frame>, ticks: nat): seq<Edge>
    requires forall i :: 0 <= i < |frames| ==> |frames[i].jitter| == 10
  {
    if frames == [] then [] else EdgesFrom(frames[0], ticks, 0) + Edges(frames[1..], ticks)
  }

  function BytesOf(frames: seq<Frame>): seq<Byte> { seq(|frames|, i requires 0 <= i < |frames| => frames[i].byte) }

  /** What the reader finds after some bytes have arrived and none was read. */
  function StoredAll(buffer: seq<Byte>, bytes: seq<Byte>): seq<Byte>
    decreases |bytes|
  {
    if bytes == [] then buffer else StoredAll(Stored(buffer, RX_BUFFER_SIZE, bytes[0]), bytes[1..])
  }

  lemma {:induction false} HearConcat(w: World, ticks: nat, a: seq<Edge>, b: seq<Edge>)
    requires w.rx.state < 9
    ensures HearAll(w, ticks, a + b) == HearAll(HearAll(w, ticks, a), ticks, b)
    decreases |a|
  {
    if a == [] {
      assert a + b == b;
    } else {
      HearConcat(Hear(w, ticks, a[0]), ticks, a[1..], b);
      assert (a + b)[1..] == a[1..] + b;
    }
  }

  /** By the next start edge the timeout is over. */
  lemma SettledByNextStart(w: World, ticks: nat, f: Frame, next: Frame, before: seq<Byte>)
    requires 2 <= ticks < MAX_COUNTS_PER_BIT && Heard(w, f, ticks, before) && Steady(next, ticks)
    requires next.start >= f.start + 10 * ticks - (ticks - ticks / 2)
    ensures HearAll(w, ticks, EdgesFrom(next, ticks, 0)) == HearAll(Settle(w), ticks, EdgesFrom(next, ticks, 0))
  {
    var e, rest := EdgeAt(next, ticks, 0), EdgesFrom(next, ticks, 1);
    assert EdgesFrom(next, ticks, 0) == [e] + rest;
    assert f.start + StopTicks(ticks) < next.start;
    assert Hear(w, ticks, e) == Hear(Settle(w), ticks, e);
  }

  /**
     The receiver rebuilds any stream of frames: after all its edges, and the last timeout,
     the bytes are in the buffer in order, as far as there is room.
   */
  lemma {:induction false} StreamReceived(w: World, frames: seq<Frame>, ticks: nat)
    requires 2 <= ticks < MAX_COUNTS_PER_BIT && Idle(w) && Stream(frames, ticks)
    ensures var after := Settle(HearAll(w, ticks, Edges(frames, ticks)));
      Idle(after) && after.rx.buffer == StoredAll(w.rx.buffer, BytesOf(frames))
    decreases |frames|
  {
    if frames != [] {
      var first, rest := frames[0], frames[1..];
      var w1 := HearAll(w, ticks, EdgesFrom(first, ticks, 0));
      HearFrame(w, first, ticks);
      HearConcat(w, ticks, EdgesFrom(first, ticks, 0), Edges(rest, ticks));
      assert BytesOf(frames)[1..] == BytesOf(rest);
      StreamReceived(Settle(w1), rest, ticks);
      if rest != [] {
        SettledByNextStart(w1, ticks, first, rest[0], w.rx.buffer);
        HearConcat(w1, ticks, EdgesFrom(rest[0], ticks, 0), Edges(rest[1..], ticks));
        HearConcat(Settle(w1), ticks, EdgesFrom(rest[0], ticks, 0), Edges(rest[1..], ticks));
      }
    }
  }

  lemma {:induction false} RoomForAll(buffer: seq<Byte>, bytes: seq<Byte>)
    requires |buffer| + |bytes| < RX_BUFFER_SIZE
    ensures StoredAll(buffer, bytes) == buffer + bytes
    decreases |bytes|
  {
    if bytes == [] {
      assert buffer + bytes == buffer;
    } else {
      RoomForAll(buffer + [bytes[0]], bytes[1..]);
      assert buffer + [bytes[0]] + bytes[1..] == buffer + bytes;
    }
  }
}
