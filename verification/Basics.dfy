/** What more than one library needs: optional values, sequences, quotients and wrapping words. */
module Basics {
  datatype Option<+T> = None | Some(value: T)

  /** What unsigned numbers of 16 and of 32 bits wrap at. */
  const WRAP: nat := 65536
  const WORD: nat := 0x1_0000_0000

  // ---------- sequences ----------

  lemma Assoc<T>(a: seq<T>, b: seq<T>, c: seq<T>)
    ensures (a + b) + c == a + (b + c)
  {
  }

  lemma FrontLast<T>(s: seq<T>)
    requires s != []
    ensures s[..|s| - 1] + [s[|s| - 1]] == s
  {
  }

  /** A sequence rewritten in place from the front. */
  lemma PutNext<T>(a: seq<T>, s: seq<T>, x: T)
    requires |a| < |s|
    ensures (a + s[|a|..])[|a| := x] == a + [x] + s[|a| + 1..]
  {
  }

  // ---------- numbers ----------

  lemma Multiple(k: int, d: nat)
    ensures 0 - d < k * d < d ==> k == 0
  {
    if k >= 1 {
      Grows(k - 1, d);
    } else if k <= -1 {
      Grows(-k - 1, d);
    }
  }

  lemma Grows(k: nat, d: nat)
    ensures (k + 1) * d == k * d + d && k * d >= 0
  {
  }

  lemma Factored(a: int, b: int, d: int)
    ensures (a - b) * d == a * d - b * d
  {
  }

  /** The quotient and the remainder are the only ones. */
  lemma Quotient(n: int, d: nat, q: int, r: nat)
    requires r < d && n == q * d + r
    ensures n / d == q && n % d == r
  {
    var p := n / d;
    assert n == p * d + n % d;
    Factored(q, p, d);
    Multiple(q - p, d);
  }

  lemma AddWraps(a: int, b: int)
    ensures (a % WORD + b) % WORD == (a + b) % WORD
  {
  }
}

/** Bytes that are sent and collected bit by bit. */
module BitBytes {
  /** Eight bits, least significant first. */
  type Byte = b: seq<bool> | |b| == 8 witness seq(8, _ => false)
}

/** Bytes that are counted, compared and split into digits. */
module Bytes {
  type Byte = n: nat | n < 256
}
