/**
 The lock-free ring of Blynk: one context puts, another gets, and neither waits for the
 other except for room or for data. One slot always stays free.
 */
module BlynkFifo2 {
  import opened Basics

  /** The slots from r up to w, around the end of the ring if need be. */
  function Between<T>(b: seq<T>, r: nat, w: nat): (s: seq<T>)
    requires r < |b| && w < |b|
    ensures |s| == Size(|b|, r, w)
  {
    if r <= w then b[r..w] else b[r..] + b[..w]
  }

  function Size(n: nat, r: nat, w: nat): (s: nat)
    requires r < n && w < n
    ensures s < n
  {
    if r <= w then w - r else n + w - r
  }

  function Free(n: nat, r: nat, w: nat): nat
    requires r < n && w < n
  {
    n - 1 - Size(n, r, w)
  }

  /** _inc */
  function Inc(i: nat, f: nat, n: nat): nat
    requires i < n && i + f <= n
  {
    if i + f == n then 0 else i + f
  }

  /** A write to the k-th free slot changes nothing that is in the queue. */
  lemma WriteOutside<T>(b: seq<T>, r: nat, w: nat, k: nat, x: T)
    requires r < |b| && w < |b| && k < Free(|b|, r, w) && w + k < |b|
    ensures Between(b[w + k := x], r, w) == Between(b, r, w)
  {
  }

  /** Free slots that have been filled join the queue when w moves. */
  lemma PublishWrite<T>(b: seq<T>, r: nat, w: nat, f: nat)
    requires r < |b| && w < |b| && f <= Free(|b|, r, w) && w + f <= |b|
    ensures Between(b, r, Inc(w, f, |b|)) == Between(b, r, w) + b[w..w + f]
  {
  }

  /** Slots from r on are the front of the queue, and leave it when r moves. */
  lemma PublishRead<T>(b: seq<T>, r: nat, w: nat, f: nat)
    requires r < |b| && w < |b| && f <= Size(|b|, r, w) && r + f <= |b|
    ensures b[r..r + f] == Between(b, r, w)[..f] && Between(b, Inc(r, f, |b|), w) == Between(b, r, w)[f..]
  {
  }

  /** The ring with a chunk copied in at w. */
  function Filled<T>(b: seq<T>, w: nat, p: seq<T>): (c: seq<T>)
    requires w + |p| <= |b|
    ensures |c| == |b|
  {
    b[..w] + p + b[w + |p|..]
  }

  lemma FilledNext<T>(b: seq<T>, w: nat, p: seq<T>, x: T)
    requires w + |p| < |b|
    ensures Filled(b, w, p)[w + |p| := x] == Filled(b, w, p + [x])
  {
  }

  lemma PublishFilled<T>(b: seq<T>, r: nat, w: nat, p: seq<T>)
    requires r < |b| && w < |b| && |p| <= Free(|b|, r, w) && w + |p| <= |b|
    ensures Between(Filled(b, w, p), r, Inc(w, |p|, |b|)) == Between(b, r, w) + p
  {
    var c := Filled(b, w, p);
    PublishWrite(c, r, w, |p|);
    assert c[w..w + |p|] == p;
    assert Between(c, r, w) == Between(b, r, w);
  }

  lemma IncWraps(i: nat, f: nat, n: nat)
    requires i < n && i + f <= n
    ensures (i + f) % n == Inc(i, f, n)
  {
    if i + f < n { assert (i + f) / n == 0; } else { assert n % n == 0; }
  }

  lemma SlotInQueue<T>(b: seq<T>, r: nat, w: nat, k: nat)
    requires r < |b| && w < |b| && k < Size(|b|, r, w) && r + k < |b|
    ensures b[r + k] == Between(b, r, w)[k]
  {
  }

  // ---------- any interleaving ----------

  /** The producer: idle, or with a chunk of bytes to copy, so many copied. */
  datatype Producer<T> = Resting | Copying(chunk: seq<T>, copied: nat)

  /** The consumer: idle, or with so many bytes to copy out, these copied. */
  datatype Consumer<T> = Waiting | Fetching(count: nat, got: seq<T>)

  /** The ring, what either side is doing, and the history: all that has been put and got. */
  datatype Ring<T> = Ring(b: seq<T>, r: nat, w: nat, producer: Producer<T>, consumer: Consumer<T>,
                          put: seq<T>, got: seq<T>)

  /** The single accesses to shared memory of put and of get. */
  datatype Step<T> = LookForRoom(data: seq<T>) | CopyIn | MoveW | LookForData(wanted: nat) | CopyOut | MoveR

  function Min(a: nat, b: nat): nat { if a < b then a else b }

  ghost predicate InBounds<T>(s: Ring<T>) { s.r < |s.b| && s.w < |s.b| }

  ghost predicate Enabled<T>(s: Ring<T>, e: Step<T>)
    requires InBounds(s)
  {
    match e
    case LookForRoom(_) => s.producer.Resting?
    case CopyIn => s.producer.Copying? && s.producer.copied < |s.producer.chunk| && s.w + s.producer.copied < |s.b|
    case MoveW => s.producer.Copying? && s.producer.copied == |s.producer.chunk| && s.w + |s.producer.chunk| <= |s.b|
    case LookForData(_) => s.consumer.Waiting?
    case CopyOut => s.consumer.Fetching? && |s.consumer.got| < s.consumer.count && s.r + |s.consumer.got| < |s.b|
    case MoveR => s.consumer.Fetching? && |s.consumer.got| == s.consumer.count && s.r + s.consumer.count <= |s.b|
  }

  /** One step. A look decides on a chunk that does not wrap around the end of the ring. */
  function Next<T>(s: Ring<T>, e: Step<T>): Ring<T>
    requires InBounds(s) && Enabled(s, e)
  {
    match e
    case LookForRoom(data) =>
      var f := Min(Min(|data|, Free(|s.b|, s.r, s.w)), |s.b| - s.w);
      if f == 0 then s else s.(producer := Copying(data[..f], 0))
    case CopyIn =>
      var k := s.producer.copied;
      s.(b := s.b[s.w + k := s.producer.chunk[k]], producer := Copying(s.producer.chunk, k + 1))
    case MoveW =>
      s.(w := Inc(s.w, |s.producer.chunk|, |s.b|), producer := Resting, put := s.put + s.producer.chunk)
    case LookForData(wanted) =>
      var f := Min(Min(wanted, Size(|s.b|, s.r, s.w)), |s.b| - s.r);
      if f == 0 then s else s.(consumer := Fetching(f, []))
    case CopyOut =>
      s.(consumer := Fetching(s.consumer.count, s.consumer.got + [s.b[s.r + |s.consumer.got|]]))
    case MoveR =>
      s.(r := Inc(s.r, s.consumer.count, |s.b|), consumer := Waiting, got := s.got + s.consumer.got)
  }

  /** The producer copies into free slots only. */
  ghost predicate ProducerSafe<T>(s: Ring<T>)
    requires InBounds(s)
  {
    match s.producer
    case Resting => true
    case Copying(chunk, copied) =>
      && copied <= |chunk| <= Free(|s.b|, s.r, s.w) && s.w + |chunk| <= |s.b|
      && s.b[s.w..s.w + copied] == chunk[..copied]
  }

  /** The consumer copies from filled slots only, and has the front of the queue so far. */
  ghost predicate ConsumerSafe<T>(s: Ring<T>)
    requires InBounds(s)
  {
    match s.consumer
    case Waiting => true
    case Fetching(count, got) =>
      && |got| <= count <= Size(|s.b|, s.r, s.w) && s.r + count <= |s.b|
      && got == Between(s.b, s.r, s.w)[..|got|]
  }

  ghost predicate Inv<T>(s: Ring<T>) {
    InBounds(s) && s.put == s.got + Between(s.b, s.r, s.w) && ProducerSafe(s) && ConsumerSafe(s)
  }

  lemma CopyInKeeps<T>(s: Ring<T>)
    requires Inv(s) && Enabled(s, CopyIn)
    ensures Inv(Next(s, CopyIn)) && Between(Next(s, CopyIn).b, s.r, s.w) == Between(s.b, s.r, s.w)
  {
    hide Between;
    var chunk, k := s.producer.chunk, s.producer.copied;
    WriteOutside(s.b, s.r, s.w, k, chunk[k]);
    var b' := s.b[s.w + k := chunk[k]];
    assert b'[s.w..s.w + k + 1] == s.b[s.w..s.w + k] + [chunk[k]];
    assert chunk[..k + 1] == chunk[..k] + [chunk[k]];
  }

  lemma MoveWKeeps<T>(s: Ring<T>)
    requires Inv(s) && Enabled(s, MoveW)
    ensures Inv(Next(s, MoveW))
  {
    var chunk := s.producer.chunk;
    assert chunk[..|chunk|] == chunk;
    PublishWrite(s.b, s.r, s.w, |chunk|);
    Assoc(s.got, Between(s.b, s.r, s.w), chunk);
  }

  lemma CopyOutKeeps<T>(s: Ring<T>)
    requires Inv(s) && Enabled(s, CopyOut)
    ensures Inv(Next(s, CopyOut))
  {
    var k, q := |s.consumer.got|, Between(s.b, s.r, s.w);
    SlotInQueue(s.b, s.r, s.w, k);
    assert q[..k + 1] == q[..k] + [q[k]];
  }

  lemma MoveRKeeps<T>(s: Ring<T>)
    requires Inv(s) && Enabled(s, MoveR)
    ensures Inv(Next(s, MoveR))
  {
    var f, q := s.consumer.count, Between(s.b, s.r, s.w);
    PublishRead(s.b, s.r, s.w, f);
    assert q == q[..f] + q[f..];
    Assoc(s.got, q[..f], q[f..]);
  }

  /** Whichever side moves, and whatever the other is in the middle of. */
  lemma StepKeeps<T>(s: Ring<T>, e: Step<T>)
    requires Inv(s) && Enabled(s, e)
    ensures Inv(Next(s, e))
    ensures s.got <= Next(s, e).got && s.put <= Next(s, e).put
  {
    match e
    case CopyIn => CopyInKeeps(s);
    case MoveW => MoveWKeeps(s);
    case CopyOut => CopyOutKeeps(s);
    case MoveR => MoveRKeeps(s);
    case _ =>
  }

  /** A run of steps, each possible in its turn. */
  ghost predicate Run<T>(s: Ring<T>, steps: seq<Step<T>>, end: Ring<T>)
    decreases |steps|
  {
    if steps == [] then end == s
    else InBounds(s) && Enabled(s, steps[0]) && Run(Next(s, steps[0]), steps[1..], end)
  }

  lemma {:induction false} RunKeeps<T>(s: Ring<T>, steps: seq<Step<T>>, end: Ring<T>)
    requires Inv(s) && Run(s, steps, end)
    ensures Inv(end)
    decreases |steps|
  {
    if steps != [] {
      StepKeeps(s, steps[0]);
      RunKeeps(Next(s, steps[0]), steps[1..], end);
    }
  }

  /** A ring with nothing in it and nobody at work on it. */
  ghost predicate Fresh<T>(s: Ring<T>) {
    s.r == s.w < |s.b| && s.producer.Resting? && s.consumer.Waiting? && s.put == [] && s.got == []
  }

  /**
     From an empty ring, under every interleaving: what has been got, and what the consumer
     is about to have got, is a beginning of what has been put, and what is missing is in
     the ring.
   */
  lemma GotIsPrefixOfPut<T>(s: Ring<T>, steps: seq<Step<T>>, end: Ring<T>)
    requires Fresh(s) && Run(s, steps, end)
    ensures InBounds(end) && end.put == end.got + Between(end.b, end.r, end.w)
    ensures |end.put| - |end.got| < |end.b|
    ensures end.consumer.Fetching? ==> end.got + end.consumer.got <= end.put
  {
    assert Between(s.b, s.r, s.w) == [];
    RunKeeps(s, steps, end);
    if end.consumer.Fetching? {
      var q, got := Between(end.b, end.r, end.w), end.consumer.got;
      assert end.got + q == end.got + got + q[|got|..];
    }
  }

  /** No step writes to a slot that holds unread data. */
  lemma UnreadKept<T>(s: Ring<T>, e: Step<T>)
    requires Inv(s) && Enabled(s, e)
    ensures Between(Next(s, e).b, s.r, s.w) == Between(s.b, s.r, s.w)
  {
    if e.CopyIn? { CopyInKeeps(s); }
  }

  // ---------- the class, one side at a time ----------

  class Fifo<T> {
    const n: nat
    const b: array<T>
    var w: nat
    var r: nat

    ghost predicate Valid()
      reads this
    {
      b.Length == n && r < n && w < n
    }

    ghost function Contents(): seq<T>
      requires Valid()
      reads this, b
    {
      Between(b[..], r, w)
    }

    constructor (n: nat, filler: T)
      requires n > 0
      ensures Valid() && Contents() == [] && this.n == n && fresh(b)
    {
      this.n := n;
      b := new T[n](_ => filler);
      w, r := 0, 0;
    }

    method CountFree() returns (f: nat)
      requires Valid()
      ensures f == n - 1 - |Contents()|
    {
      var s := r - w;
      if s <= 0 { s := s + n; }
      return s - 1;
    }

    method CountData() returns (f: nat)
      requires Valid()
      ensures f == |Contents()|
    {
      var s := w - r;
      if s < 0 { s := s + n; }
      return s;
    }

    /** One chunk into the ring, up to its end. */
    method PutChunk(p: seq<T>)
      requires Valid() && |p| <= n - 1 - |Contents()| && w + |p| <= n
      modifies this`w, b
      ensures Valid() && Contents() == old(Contents()) + p
    {
      ghost var before := b[..];
      var at := w;
      for k := 0 to |p|
        invariant w == at && b[..] == Filled(before, at, p[..k])
      {
        FilledNext(before, at, p[..k], p[k]);
        assert p[..k + 1] == p[..k] + [p[k]];
        b[at + k] := p[k];
      }
      assert p[..|p|] == p;
      PublishFilled(before, r, at, p);
      IncWraps(at, |p|, n);
      w := (at + |p|) % n;
    }

    /** The first bytes of p for which there is room. */
    method Put(p: seq<T>) returns (count: nat)
      requires Valid()
      modifies this`w, b
      ensures Valid() && count == Min(|p|, n - 1 - |old(Contents())|)
      ensures Contents() == old(Contents()) + p[..count]
    {
      count := 0;
      ghost var q := Contents();
      assert p[..0] == [];
      while count < |p|
        invariant Valid() && count <= |p| && Contents() == q + p[..count]
      {
        var f := CountFree();
        if f == 0 { return; }
        if |p| - count < f { f := |p| - count; }
        var m := n - w;
        if f > m { f := m; }
        PieceAfter(q, p, count, f);
        PutChunk(p[count..count + f]);
        count := count + f;
      }
    }

    /** One chunk out of the ring, up to its end. */
    method GetChunk(f: nat) returns (p: seq<T>)
      requires Valid() && f <= |Contents()| && r + f <= n
      modifies this`r
      ensures Valid() && p == old(Contents())[..f] && Contents() == old(Contents())[f..]
    {
      PublishRead(b[..], r, w, f);
      IncWraps(r, f, n);
      p := b[..][r..r + f];
      r := (r + f) % n;
    }

    /** The first bytes of the queue, as many as wanted and there. */
    method Get(wanted: nat) returns (p: seq<T>)
      requires Valid()
      modifies this`r
      ensures Valid() && p == old(Contents())[..Min(wanted, |old(Contents())|)]
      ensures Contents() == old(Contents())[|p|..]
    {
      hide Between;
      p := [];
      ghost var q := Contents();
      assert q[..0] == [] && q[0..] == q;
      while |p| < wanted
        invariant Valid() && |p| <= wanted && |p| <= |q| && p == q[..|p|] && Contents() == q[|p|..]
      {
        var f := CountData();
        if f == 0 { return; }
        if wanted - |p| < f { f := wanted - |p|; }
        var m := n - r;
        if f > m { f := m; }
        var chunk := GetChunk(f);
        FrontAgain(q, |p|, f);
        p := p + chunk;
      }
    }
  }

  lemma PieceAfter<T>(q: seq<T>, p: seq<T>, k: nat, f: nat)
    requires k + f <= |p|
    ensures q + p[..k] + p[k..k + f] == q + p[..k + f]
  {
  }

  lemma FrontAgain<T>(q: seq<T>, k: nat, f: nat)
    requires k + f <= |q|
    ensures q[..k] + q[k..][..f] == q[..k + f] && q[k..][f..] == q[k + f..]
  {
  }
}
