/**
 The system clock of the Time library: seconds counted from a millisecond counter that
 wraps after 32 bits, and set from an external source when it is due.
 */
module SystemTime {
  import opened Basics

  type Word = n: nat | n < WORD

  datatype Status = TimeNotSet | TimeNeedsSync | TimeSet

  /** Milliseconds since the start. */
  function Since(millis: Word, start: Word): Word { (millis - start) % WORD }

  /** The second count and the millisecond count it belongs to. */
  datatype Count = Count(sysTime: Word, prevMillis: Word)

  /** k seconds later. */
  function Plus(c: Count, k: nat): Count { Count((c.sysTime + k) % WORD, (c.prevMillis + 1000 * k) % WORD) }

  /** All whole seconds that have passed are counted, the rest is kept. */
  function Advance(c: Count, millis: Word): Count { Plus(c, Since(millis, c.prevMillis) / 1000) }

  lemma PlusPlus(c: Count, j: nat, k: nat)
    ensures Plus(Plus(c, j), k) == Plus(c, j + k)
  {
    AddWraps(c.sysTime + j, k);
    AddWraps(c.prevMillis + 1000 * j, 1000 * k);
  }

  lemma PlusNothing(c: Count)
    ensures Plus(c, 0) == c
  {
  }

  lemma PlusOne(c: Count)
    ensures Plus(c, 1) == Count((c.sysTime + 1) % WORD, (c.prevMillis + 1000) % WORD)
  {
  }

  /** Counted seconds are no longer outstanding. */
  lemma SinceLess(c: Count, k: nat, millis: Word)
    requires 1000 * k <= Since(millis, c.prevMillis)
    ensures Since(millis, Plus(c, k).prevMillis) == Since(millis, c.prevMillis) - 1000 * k
  {
    Shift(millis - c.prevMillis, 1000 * k);
    Inner(millis, c.prevMillis + 1000 * k);
  }

  lemma SinceAdds(p: Word, m1: Word, m2: Word)
    requires Since(m1, p) + Since(m2, m1) < WORD
    ensures Since(m2, p) == Since(m1, p) + Since(m2, m1)
  {
  }

  // ---------- the counter during a call ----------

  /** Less than a second between two readings of the counter. */
  ghost predicate Ticking(clock: seq<Word>) {
    forall j :: 0 <= j < |clock| - 1 ==> Since(clock[j + 1], clock[j]) < 1000
  }

  /** The milliseconds from the start to reading n, however often the counter has wrapped. */
  function Elapsed(start: Word, clock: seq<Word>, n: nat): nat
    requires n < |clock|
  {
    if n == 0 then Since(clock[0], start) else Elapsed(start, clock, n - 1) + Since(clock[n], clock[n - 1])
  }

  /** Test n of the loop, with its own reading of the counter, finds less than a second to count. */
  ghost predicate Caught(c: Count, clock: seq<Word>, n: nat)
    requires n < |clock|
  {
    Since(clock[n], Plus(c, n).prevMillis) < 1000
  }

  /** Within these readings the loop ends. */
  ghost predicate Returns(c: Count, clock: seq<Word>) {
    exists n :: 0 <= n < |clock| && Caught(c, clock, n)
  }

  /** The loop ends with test n. */
  ghost predicate ReturnsAt(c: Count, clock: seq<Word>, n: nat) {
    n < |clock| && Caught(c, clock, n) && forall i :: 0 <= i < n ==> !Caught(c, clock, i)
  }

  /** One pass of the loop, with the next reading of the counter after it. */
  lemma OnePass(c: Count, i: nat, now: Word, next: Word)
    requires Since(now, Plus(c, i).prevMillis) >= 1000
    requires Since(now, Plus(c, i).prevMillis) - 1000 + Since(next, now) < WORD
    ensures Since(next, Plus(c, i + 1).prevMillis) == Since(now, Plus(c, i).prevMillis) - 1000 + Since(next, now)
  {
    PlusPlus(c, i, 1);
    SinceLess(Plus(c, i), 1, now);
    SinceAdds(Plus(c, i + 1).prevMillis, now, next);
  }

  /** What is still to be counted at test n is what has elapsed less what has been counted, as
      long as that never comes to a turn of the counter. */
  lemma {:induction false} Backlog(c: Count, clock: seq<Word>, n: nat)
    requires n < |clock| && forall i :: 0 <= i < n ==> !Caught(c, clock, i)
    requires forall i :: 0 <= i <= n ==> Elapsed(c.prevMillis, clock, i) - 1000 * i < WORD
    ensures Since(clock[n], Plus(c, n).prevMillis) == Elapsed(c.prevMillis, clock, n) - 1000 * n
  {
    if n > 0 {
      Backlog(c, clock, n - 1);
      assert !Caught(c, clock, n - 1);
      assert Elapsed(c.prevMillis, clock, n) == Elapsed(c.prevMillis, clock, n - 1) + Since(clock[n], clock[n - 1]);
      assert Elapsed(c.prevMillis, clock, n) - 1000 * n < WORD;
      OnePass(c, n - 1, clock[n - 1], clock[n]);
    }
  }

  /** Then a call counts exactly the whole seconds up to its last reading. */
  lemma CallCounts(c: Count, clock: seq<Word>, n: nat)
    requires ReturnsAt(c, clock, n)
    requires forall i :: 0 <= i <= n ==> Elapsed(c.prevMillis, clock, i) - 1000 * i < WORD
    ensures n == Elapsed(c.prevMillis, clock, n) / 1000
  {
    Backlog(c, clock, n);
  }

  /** A call returns when the counter gains less than a second from one reading to the next. */
  lemma TickingReturns(c: Count, clock: seq<Word>)
    requires Ticking(clock) && |clock| > 0 && |clock| > Since(clock[0], c.prevMillis)
    ensures Returns(c, clock)
  {
    CatchesUp(c, clock, 0);
  }

  lemma {:induction false} CatchesUp(c: Count, clock: seq<Word>, i: nat)
    requires Ticking(clock) && i < |clock| && i + Since(clock[i], Plus(c, i).prevMillis) < |clock|
    ensures Returns(c, clock)
    decreases |clock| - i
  {
    if !Caught(c, clock, i) {
      OnePass(c, i, clock[i], clock[i + 1]);
      CatchesUp(c, clock, i + 1);
    }
  }

  /** Less than a turn of the counter after the start, a call counts all seconds up to its last reading. */
  lemma {:induction false} CallAdvances(c: Count, clock: seq<Word>, n: nat)
    requires n < |clock| && Elapsed(c.prevMillis, clock, n) < WORD
    ensures Plus(c, Elapsed(c.prevMillis, clock, n) / 1000) == Advance(c, clock[n])
    ensures Since(clock[n], c.prevMillis) == Elapsed(c.prevMillis, clock, n)
  {
    if n > 0 {
      CallAdvances(c, clock, n - 1);
      SinceAdds(c.prevMillis, clock[n - 1], clock[n]);
    }
  }

  lemma Shift(x: int, d: nat)
    requires x % WORD >= d
    ensures (x - d) % WORD == x % WORD - d
  {
  }

  lemma Inner(x: int, y: int)
    ensures (x - y % WORD) % WORD == (x - y) % WORD
  {
  }

  class Clock {
    var sysTime: Word
    var prevMillis: Word
    var nextSyncTime: Word
    var syncInterval: Word
    var status: Status

    constructor ()
      ensures sysTime == prevMillis == nextSyncTime == 0 && syncInterval == 300 && status == TimeNotSet
    {
      sysTime, prevMillis, nextSyncTime, syncInterval, status := 0, 0, 0, 300, TimeNotSet;
    }

    /** The seconds since the last call. The counter is read anew for every test of the loop. */
    method CountSeconds(clock: seq<Word>) returns (used: nat)
      requires Returns(Count(sysTime, prevMillis), clock)
      modifies this`sysTime, this`prevMillis
      ensures ReturnsAt(Count(old(sysTime), old(prevMillis)), clock, used)
      ensures Count(sysTime, prevMillis) == Plus(Count(old(sysTime), old(prevMillis)), used)
    {
      hide Since, Plus;
      ghost var c := Count(sysTime, prevMillis);
      assert Plus(c, 0) == c by { PlusNothing(c); }
      ghost var last :| 0 <= last < |clock| && Caught(c, clock, last);
      used := 0;
      while Since(clock[used], prevMillis) >= 1000
        invariant used <= last && Count(sysTime, prevMillis) == Plus(c, used)
        invariant forall i :: 0 <= i < used ==> !Caught(c, clock, i)
        decreases last - used
      {
        assert !Caught(c, clock, used);
        PlusPlus(c, used, 1);
        PlusOne(Count(sysTime, prevMillis));
        sysTime := (sysTime + 1) % WORD;
        prevMillis := (prevMillis + 1000) % WORD;
        used := used + 1;
      }
      assert Caught(c, clock, used);
    }

    /** The time source is asked only when a synchronisation is due; its 0 means that it has no answer. */
    method Now(clock: seq<Word>, source: Option<Word>, setAt: Word) returns (t: Word, used: nat)
      requires Returns(Count(sysTime, prevMillis), clock)
      modifies this
      ensures ReturnsAt(Count(old(sysTime), old(prevMillis)), clock, used)
      ensures var c := Plus(Count(old(sysTime), old(prevMillis)), used);
        var due := old(nextSyncTime) <= c.sysTime && source.Some?;
        if due && source.value != 0 then
          sysTime == source.value && prevMillis == setAt && status == TimeSet &&
          nextSyncTime == (source.value + syncInterval) % WORD
        else
          Count(sysTime, prevMillis) == c &&
          nextSyncTime == (if due then (c.sysTime + syncInterval) % WORD else old(nextSyncTime)) &&
          status == (if due && old(status) != TimeNotSet then TimeNeedsSync else old(status))
      ensures t == sysTime && syncInterval == old(syncInterval)
    {
      used := CountSeconds(clock);
      if nextSyncTime <= sysTime {
        match source
        case None =>
        case Some(answer) =>
          if answer != 0 {
            SetTime(answer, setAt);
          } else {
            nextSyncTime := (sysTime + syncInterval) % WORD;
            status := if status == TimeNotSet then TimeNotSet else TimeNeedsSync;
          }
      }
      t := sysTime;
    }

    method SetTime(t: Word, millis: Word)
      modifies this
      ensures sysTime == t && prevMillis == millis && status == TimeSet
      ensures nextSyncTime == (t + syncInterval) % WORD && syncInterval == old(syncInterval)
    {
      sysTime := t;
      nextSyncTime := (t + syncInterval) % WORD;
      status := TimeSet;
      prevMillis := millis;
    }
  }

  lemma Division(a: nat, b: nat)
    ensures (a + b) / 1000 == a / 1000 + (a - 1000 * (a / 1000) + b) / 1000
  {
  }

  /**
     No time is lost to the calling pattern: two calls count what one call at the later
     time would have counted, across wraps of the millisecond counter, as long as the
     counter has not gone all the way round since the last whole second.
   */
  lemma NoTimeLost(c: Count, m1: Word, m2: Word)
    requires Since(m1, c.prevMillis) + Since(m2, m1) < WORD
    ensures Advance(Advance(c, m1), m2) == Advance(c, m2)
  {
    var e1, e2 := Since(m1, c.prevMillis), Since(m2, m1);
    var q := e1 / 1000;
    SinceAdds(c.prevMillis, m1, m2);
    SinceLess(c, q, m2);
    Division(e1, e2);
    PlusPlus(c, q, (e1 - 1000 * q + e2) / 1000);
  }
}
