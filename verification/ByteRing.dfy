/**
 The ring that AltSoftSerial keeps on either side of an interrupt: head is the slot last
 written, tail the slot last read, and one slot always stays free.
 */
module ByteRing {
  import opened Basics
  import opened BitBytes

  /** A byte for the reader of a ring of the given size, dropped when the ring is full. */
  function Stored(buffer: seq<Byte>, size: nat, b: Byte): seq<Byte> {
    if |buffer| + 1 < size then buffer + [b] else buffer
  }

  /** The slots after tail up to head, around the end of the ring if need be. */
  function Between<T>(a: seq<T>, tail: nat, head: nat): (s: seq<T>)
    requires tail < |a| && head < |a|
    ensures |s| == if tail <= head then head - tail else |a| + head - tail
  {
    if tail <= head then a[tail + 1..head + 1] else a[tail + 1..] + a[..head + 1]
  }

  function Next(i: nat, size: nat): nat { if i + 1 >= size then 0 else i + 1 }

  lemma PutBetween<T>(a: seq<T>, tail: nat, head: nat, b: T)
    requires tail < |a| && head < |a| && Next(head, |a|) != tail
    ensures Between(a[Next(head, |a|) := b], tail, Next(head, |a|)) == Between(a, tail, head) + [b]
  {
    var n := Next(head, |a|);
    if n == 0 {
      assert a[n := b][..1] == [b];
      assert a[n := b][tail + 1..] == a[tail + 1..];
    }
  }

  lemma TakeBetween<T>(a: seq<T>, tail: nat, head: nat)
    requires tail < |a| && head < |a| && head != tail
    ensures Between(a, tail, head) == [a[Next(tail, |a|)]] + Between(a, Next(tail, |a|), head)
  {
    if tail + 1 == |a| {
      FirstOf(a, 0, head + 1);
    } else if tail < head {
      FirstOf(a, tail + 1, head + 1);
    } else {
      FirstOf(a, tail + 1, |a|);
      Assoc([a[tail + 1]], a[tail + 2..], a[..head + 1]);
    }
  }

  lemma FirstOf<T>(a: seq<T>, i: nat, j: nat)
    requires i < j <= |a|
    ensures a[i..j] == [a[i]] + a[i + 1..j]
  {
  }

  class Ring {
    const size: nat
    const buffer: array<Byte>
    var head: nat
    var tail: nat

    ghost predicate Valid()
      reads this
    {
      buffer.Length == size && head < size && tail < size
    }

    /** The bytes not yet taken, oldest first. */
    ghost function Contents(): (s: seq<Byte>)
      requires Valid()
      reads this, buffer
      ensures |s| < size
    {
      Between(buffer[..], tail, head)
    }

    constructor (size: nat)
      requires size > 0
      ensures Valid() && this.size == size && Contents() == [] && fresh(buffer)
    {
      this.size := size;
      buffer := new Byte[size](_ => seq(8, _ => false));
      head, tail := 0, 0;
    }

    method Put(b: Byte)
      requires Valid()
      modifies this`head, buffer
      ensures Valid() && Contents() == Stored(old(Contents()), size, b)
    {
      var next := head + 1;
      if next >= size { next := 0; }
      if next != tail {
        PutBetween(buffer[..], tail, head, b);
        buffer[next] := b;
        head := next;
      }
    }

    method Take() returns (r: Option<Byte>)
      requires Valid()
      modifies this`tail
      ensures Valid()
      ensures old(Contents()) == [] ==> r == None && Contents() == []
      ensures old(Contents()) != [] ==> r == Some(old(Contents())[0]) && Contents() == old(Contents())[1..]
    {
      if head == tail { return None; }
      TakeBetween(buffer[..], tail, head);
      var next := tail + 1;
      if next >= size { next := 0; }
      var out := buffer[next];
      tail := next;
      return Some(out);
    }

    method Peek() returns (r: Option<Byte>)
      requires Valid()
      ensures r == if Contents() == [] then None else Some(Contents()[0])
    {
      if head == tail { return None; }
      TakeBetween(buffer[..], tail, head);
      var next := tail + 1;
      if next >= size { next := 0; }
      return Some(buffer[next]);
    }

    method Available() returns (n: nat)
      requires Valid()
      ensures n == |Contents()|
    {
      if head >= tail { return head - tail; }
      return size + head - tail;
    }

    method Clear()
      requires Valid()
      modifies this`head
      ensures Valid() && Contents() == []
    {
      head := tail;
    }
  }
}
