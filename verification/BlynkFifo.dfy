/**
 The other ring of Blynk: no slot stays free, a flag tells full from empty, and a write or
 a read goes around the end of the buffer in two chunks.
 */
module BlynkFifo {
  import opened BlynkFifo2

  /** The queue: all of the buffer if it is full. */
  function Queue<T>(b: seq<T>, fst: nat, lst: nat, full: bool): (q: seq<T>)
    requires fst < |b| && lst < |b|
    ensures |q| == Occupied(|b|, fst, lst, full)
  {
    if fst == lst && full then b[fst..] + b[..fst] else Between(b, fst, lst)
  }

  function Occupied(n: nat, fst: nat, lst: nat, full: bool): nat
    requires fst < n && lst < n
  {
    if fst == lst && full then n else Size(n, fst, lst)
  }

  /** The buffer with data copied in from lst on, around the end if need be. */
  function Written<T>(b: seq<T>, lst: nat, data: seq<T>): (c: seq<T>)
    requires lst < |b| && |data| <= |b|
    ensures |c| == |b|
  {
    if lst + |data| <= |b| then Filled(b, lst, data)
    else
      var m := |b| - lst;
      Filled(Filled(b, lst, data[..m]), 0, data[m..])
  }

  function After(i: nat, k: nat, n: nat): nat
    requires i < n && k <= n
  {
    if i + k < n then i + k else i + k - n
  }

  /** The index after a chunk, or after two. */
  lemma AfterWraps(i: nat, k: nat, n: nat)
    requires i < n && k <= n
    ensures k <= n - i ==> (i + k) % n == After(i, k, n)
    ensures k > n - i ==> (i + (n - i)) % n == 0 && (0 + (k - (n - i))) % n == After(i, k, n)
  {
    if k <= n - i {
      IncWraps(i, k, n);
    } else {
      IncWraps(i, n - i, n);
      IncWraps(0, k - (n - i), n);
    }
  }

  /** A write within the free space joins the queue; the flag is needed when it fills the buffer. */
  lemma WriteJoins<T>(b: seq<T>, fst: nat, lst: nat, full: bool, data: seq<T>)
    requires fst < |b| && lst < |b| && 0 < |data| <= |b| - Occupied(|b|, fst, lst, full)
    ensures var lst' := After(lst, |data|, |b|);
      Queue(Written(b, lst, data), fst, lst', fst == lst') == Queue(b, fst, lst, full) + data
  {
    hide Written, Queue;
    var c, lst' := Written(b, lst, data), After(lst, |data|, |b|);
    var q, q' := Queue(b, fst, lst, full) + data, Queue(c, fst, lst', fst == lst');
    assert |q'| == |q|;
    forall i | 0 <= i < |q| ensures q'[i] == q[i] {
      QueueAt(b, fst, lst, full, i);
      QueueAt(c, fst, lst', fst == lst', i);
      WrittenAt(b, lst, data, After(fst, i, |b|));
    }
  }

  /** Element i of the queue is i slots after the first. */
  lemma QueueAt<T>(b: seq<T>, fst: nat, lst: nat, full: bool, i: nat)
    requires fst < |b| && lst < |b|
    ensures i < Occupied(|b|, fst, lst, full) ==> Queue(b, fst, lst, full)[i] == b[After(fst, i, |b|)]
  {
  }

  /** Slot j after the write: data if it is less than |data| slots after lst. */
  lemma WrittenAt<T>(b: seq<T>, lst: nat, data: seq<T>, j: nat)
    requires lst < |b| && |data| <= |b| && j < |b|
    ensures var k := if j >= lst then j - lst else j + |b| - lst;
      Written(b, lst, data)[j] == if k < |data| then data[k] else b[j]
  {
    hide Filled;
    if lst + |data| <= |b| {
      FilledAt(b, lst, data, j);
    } else {
      var m := |b| - lst;
      FilledAt(b, lst, data[..m], j);
      FilledAt(Filled(b, lst, data[..m]), 0, data[m..], j);
    }
  }

  lemma FilledAt<T>(b: seq<T>, w: nat, p: seq<T>, j: nat)
    requires w + |p| <= |b| && j < |b|
    ensures Filled(b, w, p)[j] == if w <= j < w + |p| then p[j - w] else b[j]
  {
  }

  /** What a read copies out, in one chunk or two. */
  function ReadOut<T>(b: seq<T>, fst: nat, k: nat): (p: seq<T>)
    requires fst < |b| && k <= |b|
    ensures |p| == k
  {
    if fst + k <= |b| then b[fst..fst + k] else b[fst..] + b[..fst + k - |b|]
  }

  /** A read takes the front of the queue. */
  lemma ReadTakes<T>(b: seq<T>, fst: nat, lst: nat, full: bool, k: nat)
    requires fst < |b| && lst < |b| && 0 < k <= Occupied(|b|, fst, lst, full)
    ensures var q := Queue(b, fst, lst, full);
      ReadOut(b, fst, k) == q[..k] && Queue(b, After(fst, k, |b|), lst, false) == q[k..]
  {
    hide Queue, ReadOut;
    var q, p, fst' := Queue(b, fst, lst, full), ReadOut(b, fst, k), After(fst, k, |b|);
    forall i | 0 <= i < k ensures p[i] == q[..k][i] {
      QueueAt(b, fst, lst, full, i);
      ReadOutAt(b, fst, k, i);
    }
    var q' := Queue(b, fst', lst, false);
    assert |q'| == |q| - k;
    forall i | 0 <= i < |q| - k ensures q'[i] == q[k..][i] {
      QueueAt(b, fst, lst, full, k + i);
      QueueAt(b, fst', lst, false, i);
    }
  }

  lemma ReadOutChunks<T>(b: seq<T>, fst: nat, k: nat)
    requires fst < |b| && k <= |b|
    ensures k <= |b| - fst ==> ReadOut(b, fst, k) == b[fst..fst + k]
    ensures k > |b| - fst ==> ReadOut(b, fst, k) == b[fst..fst + (|b| - fst)] + b[..k - (|b| - fst)]
  {
  }

  lemma ReadOutAt<T>(b: seq<T>, fst: nat, k: nat, i: nat)
    requires fst < |b| && i < k <= |b|
    ensures ReadOut(b, fst, k)[i] == b[After(fst, i, |b|)]
  {
  }

  class Fifo<T> {
    const size: nat
    const buffer: array<T>
    var fst: nat
    var lst: nat
    var flag: bool

    ghost predicate Valid()
      reads this
    {
      buffer.Length == size && fst < size && lst < size && (flag ==> fst == lst)
    }

    ghost function Contents(): (q: seq<T>)
      requires Valid()
      reads this, buffer
      ensures |q| <= size
    {
      Queue(buffer[..], fst, lst, flag)
    }

    constructor (size: nat, filler: T)
      requires size > 0
      ensures Valid() && Contents() == [] && this.size == size && fresh(buffer)
    {
      this.size := size;
      buffer := new T[size](_ => filler);
      fst, lst, flag := 0, 0, false;
    }

    method GetOccupied() returns (n: nat)
      requires Valid()
      ensures n == |Contents()|
    {
      if lst == fst { return if flag then size else 0; }
      else if lst > fst { return lst - fst; }
      else { return size + lst - fst; }
    }

    method GetFree() returns (n: nat)
      requires Valid()
      ensures n == size - |Contents()|
    {
      var o := GetOccupied();
      return size - o;
    }

    method CopyIn(at: nat, data: seq<T>)
      requires at + |data| <= buffer.Length
      modifies buffer
      ensures buffer[..] == Filled(old(buffer[..]), at, data)
    {
      ghost var before := buffer[..];
      assert before == Filled(before, at, data[..0]);
      for k := 0 to |data|
        invariant buffer[..] == Filled(before, at, data[..k])
      {
        FilledNext(before, at, data[..k], data[k]);
        assert data[..k + 1] == data[..k] + [data[k]];
        buffer[at + k] := data[k];
      }
      assert data[..|data|] == data;
    }

    /** The copying of a write, in one chunk or two. */
    method CopyChunks(data: seq<T>)
      requires Valid() && 0 < |data| <= size
      modifies this`lst, buffer
      ensures buffer[..] == Written(old(buffer[..]), old(lst), data) && lst == After(old(lst), |data|, size)
    {
      hide Filled, After;
      var at := lst;
      var ch1 := if |data| < size - at then |data| else size - at;
      AfterWraps(at, |data|, size);
      CopyIn(at, data[..ch1]);
      lst := (at + ch1) % size;
      if ch1 < |data| {
        CopyIn(0, data[ch1..]);
        lst := (lst + (|data| - ch1)) % size;
      } else {
        assert data[..ch1] == data;
      }
    }

    /** As much of the data as there is room for joins the queue. */
    method Write(data: seq<T>) returns (count: nat)
      requires Valid()
      modifies this`lst, this`flag, buffer
      ensures Valid() && count == Min(|data|, size - |old(Contents())|)
      ensures Contents() == old(Contents()) + data[..count]
    {
      var free := GetFree();
      count := if |data| < free then |data| else free;
      if count > 0 {
        WriteJoins(buffer[..], fst, lst, flag, data[..count]);
        CopyChunks(data[..count]);
        if fst == lst { flag := true; }
      }
    }

    /** The copying of a read, in one chunk or two. */
    method TakeChunks(n: nat) returns (dest: seq<T>)
      requires Valid() && 0 < n <= size
      modifies this`fst
      ensures dest == ReadOut(buffer[..], old(fst), n) && fst == After(old(fst), n, size)
    {
      hide After, ReadOut;
      var at := fst;
      var ch1 := if n < size - at then n else size - at;
      AfterWraps(at, n, size);
      ReadOutChunks(buffer[..], at, n);
      dest := buffer[..][at..at + ch1];
      fst := (at + ch1) % size;
      if ch1 < n {
        dest := dest + buffer[..][..n - ch1];
        fst := (fst + (n - ch1)) % size;
      }
    }

    /** The front of the queue, as much as is wanted and there. */
    method Read(wanted: nat) returns (dest: seq<T>)
      requires Valid()
      modifies this`fst, this`flag
      ensures Valid() && dest == old(Contents())[..Min(wanted, |old(Contents())|)]
      ensures Contents() == old(Contents())[|dest|..]
    {
      var occupied := GetOccupied();
      var n := if wanted < occupied then wanted else occupied;
      dest := [];
      if n > 0 {
        ReadTakes(buffer[..], fst, lst, flag, n);
        flag := false;
        dest := TakeChunks(n);
      }
    }

    method Push(data: T) returns (ok: bool)
      requires Valid()
      modifies this`lst, this`flag, buffer
      ensures Valid() && (ok <==> |old(Contents())| < size)
      ensures Contents() == if ok then old(Contents()) + [data] else old(Contents())
    {
      var n := Write([data]);
      return n == 1;
    }
  }
}
