/**
 The binary trie of 64-bit 1-Wire ROM codes, in the order the bits travel on the wire.
 This is the specification side of the search: which ROM comes next, and which
 discrepancy has to be remembered between two calls.
 */
module RomOrder {

  type Rom = r: seq<bool> | |r| == 64 witness seq(64, _ => false)

  /** The order in which the wire enumerates ROMs: at the first difference, 0 before 1. */
  ghost predicate Less(a: Rom, b: Rom) {
    exists k :: 0 <= k < 64 && FirstDifference(a, b, k) && b[k]
  }

  ghost predicate FirstDifference(a: Rom, b: Rom, k: nat) {
    k < 64 && a[..k] == b[..k] && a[k] != b[k]
  }

  ghost predicate Leq(a: Rom, b: Rom) { a == b || Less(a, b) }

  /** The devices of D still listening after the master has written r[..k]. */
  ghost function Listening(D: set<Rom>, r: Rom, k: nat): set<Rom>
    requires k <= 64
  {
    set d | d in D && d[..k] == r[..k]
  }

  /** After r[..k] some listening device has a 0 at position k and some other one a 1. */
  ghost predicate Junction(D: set<Rom>, r: Rom, k: nat) {
    k < 64 &&
    (exists a :: a in Listening(D, r, k) && !a[k]) &&
    (exists b :: b in Listening(D, r, k) && b[k])
  }

  /** 1-based position of the last junction among the first n bits where r went to the 0 side; 0 if there is none. */
  ghost function LastZero(D: set<Rom>, r: Rom, n: nat): (p: nat)
    requires n <= 64
    ensures p <= n
    ensures p > 0 ==> Junction(D, r, p - 1) && !r[p - 1]
    ensures forall k :: p <= k < n && Junction(D, r, k) ==> r[k]
  {
    if n == 0 then 0
    else if Junction(D, r, n - 1) && !r[n - 1] then n
    else LastZero(D, r, n - 1)
  }

  /** The discrepancy to remember after r has been found. */
  ghost function Pending(D: set<Rom>, r: Rom): (p: nat)
    ensures p <= 64
    ensures p > 0 ==> Junction(D, r, p - 1) && !r[p - 1]
    ensures forall k :: p <= k < 64 && Junction(D, r, k) ==> r[k]
  {
    LastZero(D, r, |r|)
  }

  /** What the search writes at a junction at 0-based position k: the old path before
      the remembered discrepancy, 1 at it, 0 after it. */
  ghost predicate Direction(old_: Rom, discrepancy: nat, k: nat)
    requires k < 64
  {
    if k + 1 < discrepancy then old_[k] else k + 1 == discrepancy
  }

  /** r is the leaf the search reaches in D. */
  ghost predicate Follows(D: set<Rom>, old_: Rom, discrepancy: nat, r: Rom) {
    r in D && forall k :: 0 <= k < 64 && Junction(D, r, k) ==> r[k] == Direction(old_, discrepancy, k)
  }

  ghost predicate IsLeast(D: set<Rom>, r: Rom) {
    r in D && forall d :: d in D ==> Leq(r, d)
  }

  ghost predicate IsGreatest(D: set<Rom>, r: Rom) {
    r in D && forall d :: d in D ==> Leq(d, r)
  }

  /** r is the immediate successor of prev in D. */
  ghost predicate IsNext(D: set<Rom>, prev: Rom, r: Rom) {
    r in D && Less(prev, r) && forall d :: d in D && Less(prev, d) ==> Leq(r, d)
  }

  // ---------- the order ----------

  lemma FirstDifferenceExists(a: Rom, b: Rom) returns (k: nat)
    requires a != b
    ensures FirstDifference(a, b, k) && FirstDifference(b, a, k)
  {
    k := 0;
    while a[k] == b[k]
      invariant k < 64 && a[..k] == b[..k] && a[k..] != b[k..]
      decreases 64 - k
    {
      assert a[..k + 1] == a[..k] + [a[k]] == b[..k] + [b[k]] == b[..k + 1];
      assert a[k..] == [a[k]] + a[k + 1..] && b[k..] == [b[k]] + b[k + 1..];
      k := k + 1;
    }
  }

  lemma Total(a: Rom, b: Rom)
    ensures Leq(a, b) || Less(b, a)
  {
    if a != b { var k := FirstDifferenceExists(a, b); }
  }

  lemma Prefix(a: Rom, b: Rom, j: nat, k: nat)
    requires j <= k <= 64 && a[..k] == b[..k]
    ensures a[..j] == b[..j]
    ensures j < k ==> a[j] == b[j]
  {
    assert a[..j] == a[..k][..j];
    assert b[..j] == b[..k][..j];
    if j < k { assert a[j] == a[..k][j] && b[j] == b[..k][j]; }
  }

  lemma Transitive(a: Rom, b: Rom, c: Rom)
    requires Less(a, b) && Less(b, c)
    ensures Less(a, c)
  {
    var j :| 0 <= j < 64 && FirstDifference(a, b, j) && b[j];
    var k :| 0 <= k < 64 && FirstDifference(b, c, k) && c[k];
    var m := if j < k then j else k;
    Prefix(a, b, m, j);
    Prefix(b, c, m, k);
    assert FirstDifference(a, c, m) && c[m];
  }

  lemma Irreflexive(a: Rom, b: Rom)
    requires Less(a, b)
    ensures a != b && !Less(b, a)
  {
    var j :| 0 <= j < 64 && FirstDifference(a, b, j) && b[j];
    if Less(b, a) {
      var k :| 0 <= k < 64 && FirstDifference(b, a, k) && a[k];
      if j < k { Prefix(b, a, j, k); } else if k < j { Prefix(a, b, k, j); }
    }
  }

  lemma LeastUnique(D: set<Rom>, a: Rom, b: Rom)
    requires IsLeast(D, a) && IsLeast(D, b)
    ensures a == b
  {
    if a != b {
      assert Less(a, b);
      Irreflexive(a, b);
    }
  }

  // ---------- what Follows means ----------

  /** Two ROMs of D that part at k make k a junction on both paths. */
  lemma PartingIsJunction(D: set<Rom>, a: Rom, b: Rom, k: nat)
    requires a in D && b in D && FirstDifference(a, b, k)
    ensures Junction(D, a, k) && Junction(D, b, k)
  {
    assert a in Listening(D, a, k) && b in Listening(D, a, k);
    assert a in Listening(D, b, k) && b in Listening(D, b, k);
  }

  /** The search is deterministic: at most one leaf follows the rule. */
  lemma FollowsUnique(D: set<Rom>, old_: Rom, discrepancy: nat, a: Rom, b: Rom)
    requires Follows(D, old_, discrepancy, a) && Follows(D, old_, discrepancy, b)
    ensures a == b
  {
    if a != b {
      var k := FirstDifferenceExists(a, b);
      PartingIsJunction(D, a, b, k);
    }
  }

  /** With no remembered discrepancy the search reaches the least ROM, whatever the old one. */
  lemma FollowsFromStart(D: set<Rom>, old_: Rom, r: Rom)
    requires Follows(D, old_, 0, r)
    ensures IsLeast(D, r)
  {
    forall d | d in D ensures Leq(r, d) {
      if d != r {
        var k := FirstDifferenceExists(r, d);
        PartingIsJunction(D, r, d, k);
      }
    }
  }

  /** Before the remembered discrepancy the new path repeats the old one, at it they part. */
  lemma SharesPrefix(D: set<Rom>, prev: Rom, r: Rom, k: nat)
    requires prev in D && Pending(D, prev) > 0
    requires Follows(D, prev, Pending(D, prev), r)
    requires k < Pending(D, prev)
    ensures r[..k] == prev[..k]
  {
    if k > 0 {
      SharesPrefix(D, prev, r, k - 1);
      if r[k - 1] != prev[k - 1] { PartingIsJunction(D, prev, r, k - 1); }
      assert r[..k] == r[..k - 1] + [r[k - 1]];
      assert prev[..k] == prev[..k - 1] + [prev[k - 1]];
    }
  }

  /** With the discrepancy of the last found ROM remembered, the search reaches its immediate successor. */
  lemma FollowsFromLast(D: set<Rom>, prev: Rom, r: Rom)
    requires prev in D && Pending(D, prev) > 0
    requires Follows(D, prev, Pending(D, prev), r)
    ensures IsNext(D, prev, r)
  {
    var p := Pending(D, prev) - 1;
    SharesPrefix(D, prev, r, p);
    assert Listening(D, r, p) == Listening(D, prev, p);
    assert FirstDifference(prev, r, p);
    forall d | d in D && Less(prev, d) ensures Leq(r, d) {
      var q :| 0 <= q < 64 && FirstDifference(prev, d, q) && d[q];
      PartingIsJunction(D, prev, d, q);
      if q < p {
        Prefix(r, prev, q, p);
        assert FirstDifference(r, d, q);
      } else if d != r {
        var k := FirstDifferenceExists(r, d);
        PartingIsJunction(D, r, d, k);
        if k < p { Prefix(r, prev, k, p); Prefix(prev, d, k, p); }
      }
    }
  }

  /** No remembered discrepancy after a find means that it was the last ROM, and conversely. */
  lemma PendingIsZero(D: set<Rom>, r: Rom)
    requires r in D
    ensures Pending(D, r) == 0 <==> IsGreatest(D, r)
  {
    if Pending(D, r) == 0 {
      forall d | d in D ensures Leq(d, r) {
        if d != r {
          var k := FirstDifferenceExists(d, r);
          PartingIsJunction(D, d, r, k);
        }
      }
    } else {
      var p := Pending(D, r) - 1;
      var b :| b in Listening(D, r, p) && b[p];
      assert FirstDifference(r, b, p);
      Irreflexive(r, b);
    }
  }

  // ---------- whole runs ----------

  /** The finds of one run so far: any ROM first, then successor after successor. */
  ghost predicate Chain(D: set<Rom>, found: seq<Rom>) {
    (|found| > 0 ==> found[0] in D) &&
    forall i :: 0 < i < |found| ==> IsNext(D, found[i - 1], found[i])
  }

  /** A finished run: it ends in the greatest ROM. */
  ghost predicate Run(D: set<Rom>, found: seq<Rom>) {
    |found| > 0 && Chain(D, found) && IsGreatest(D, found[|found| - 1])
  }

  ghost predicate StrictlyIncreasing(found: seq<Rom>) {
    forall i, j :: 0 <= i < j < |found| ==> Less(found[i], found[j])
  }

  lemma ChainIncreases(D: set<Rom>, found: seq<Rom>, i: nat, j: nat)
    requires Chain(D, found) && i < j < |found|
    ensures Less(found[i], found[j])
  {
    if i + 1 < j {
      ChainIncreases(D, found, i, j - 1);
      Transitive(found[i], found[j - 1], found[j]);
    }
  }

  lemma ChainInD(D: set<Rom>, found: seq<Rom>)
    requires Chain(D, found)
    ensures forall r :: r in found ==> r in D
  {
    forall i | 0 <= i < |found| ensures found[i] in D {
      if i > 0 { assert IsNext(D, found[i - 1], found[i]); }
    }
  }

  /** Everything in D between the first and the last find has been found. */
  lemma ChainSkipsNothing(D: set<Rom>, found: seq<Rom>, d: Rom)
    requires Chain(D, found) && |found| > 0
    requires d in D && Leq(found[0], d) && Leq(d, found[|found| - 1])
    ensures d in found
  {
    var n := |found| - 1;
    if d != found[n] {
      if n == 0 {
        Irreflexive(d, found[0]);
      } else {
        Total(d, found[n - 1]);
        if Less(found[n - 1], d) {
          Irreflexive(d, found[n]);
        } else {
          assert Chain(D, found[..n]);
          ChainSkipsNothing(D, found[..n], d);
        }
      }
    }
  }

  lemma DistinctCount(found: seq<Rom>)
    requires forall i, j :: 0 <= i < j < |found| ==> found[i] != found[j]
    ensures |set r | r in found| == |found|
  {
    if found != [] {
      var n := |found| - 1;
      DistinctCount(found[..n]);
      assert (set r | r in found) == (set r | r in found[..n]) + {found[n]};
    } else {
      assert (set r | r in found) == {};
    }
  }

  /** A finished run lists every ROM of D from its first find on, once, in wire order. */
  lemma RunEnumerates(D: set<Rom>, found: seq<Rom>)
    requires Run(D, found)
    ensures StrictlyIncreasing(found)
    ensures (set r | r in found) == set d | d in D && Leq(found[0], d)
    ensures |found| == |set d | d in D && Leq(found[0], d)|
  {
    forall i, j | 0 <= i < j < |found| ensures Less(found[i], found[j]) && found[i] != found[j] {
      ChainIncreases(D, found, i, j);
      Irreflexive(found[i], found[j]);
    }
    ChainInD(D, found);
    forall d | d in D && Leq(found[0], d) ensures d in found { ChainSkipsNothing(D, found, d); }
    forall r | r in found ensures Leq(found[0], r) {
      var i :| 0 <= i < |found| && found[i] == r;
      if i > 0 { assert Less(found[0], found[i]); }
    }
    DistinctCount(found);
    assert (set r | r in found) == set d | d in D && Leq(found[0], d);
  }

  /** Started at the least ROM, a run lists the whole of D, each ROM exactly once. */
  lemma RunFromLeast(D: set<Rom>, found: seq<Rom>)
    requires Run(D, found) && IsLeast(D, found[0])
    ensures StrictlyIncreasing(found) && (set r | r in found) == D && |found| == |D|
  {
    RunEnumerates(D, found);
    assert (set d | d in D && Leq(found[0], d)) == D;
  }

  /** A chain never finds more than there is. */
  lemma ChainBounded(D: set<Rom>, found: seq<Rom>)
    requires Chain(D, found)
    ensures |found| <= |D|
  {
    forall i, j | 0 <= i < j < |found| ensures found[i] != found[j] {
      ChainIncreases(D, found, i, j);
      Irreflexive(found[i], found[j]);
    }
    DistinctCount(found);
    ChainInD(D, found);
    var s := set r | r in found;
    SubsetCount(s, D);
  }

  lemma SubsetCount(a: set<Rom>, b: set<Rom>)
    requires a <= b
    ensures |a| <= |b|
  {
    assert b == a + (b - a);
    assert |b| == |a| + |b - a|;
  }

  // ---------- families ----------

  ghost predicate ZeroFamily(r: Rom) { r[..8] == seq(8, _ => false) }

  /** A device with family code zero comes before every other one. */
  lemma ZeroFamilyFirst(z: Rom, r: Rom)
    requires ZeroFamily(z) && !ZeroFamily(r)
    ensures Less(z, r)
  {
    var k := FirstDifferenceExists(z, r);
    if k < 8 {
      assert z[..8][k] == seq(8, _ => false)[k];
    } else {
      Prefix(z, r, 8, k);
    }
  }

  /** The least ROM has family code zero exactly when some ROM has. */
  lemma LeastZeroFamily(D: set<Rom>, r: Rom)
    requires IsLeast(D, r)
    ensures ZeroFamily(r) <==> exists z :: z in D && ZeroFamily(z)
  {
    if z :| z in D && ZeroFamily(z) {
      if !ZeroFamily(r) {
        ZeroFamilyFirst(z, r);
        Irreflexive(z, r);
      }
    }
  }

  /** Going on from a non-zero family never comes to the zero one. */
  lemma NextFamilyNonZero(prev: Rom, r: Rom)
    requires Less(prev, r) && !ZeroFamily(prev)
    ensures !ZeroFamily(r)
  {
    if ZeroFamily(r) {
      ZeroFamilyFirst(r, prev);
      Irreflexive(prev, r);
    }
  }

  ghost function Family(D: set<Rom>, code: seq<bool>): set<Rom>
    requires |code| == 8
  {
    set d | d in D && d[..8] == code
  }

  /** The ROM that differs from r in the last bit only. */
  ghost function Sibling(r: Rom): Rom { r[63 := !r[63]] }

  /** A search aimed at a family reaches its least member, except that a ROM
      differing from that one in the very last bit is taken in its place. */
  ghost function FamilyTarget(D: set<Rom>, least: Rom): Rom {
    if Sibling(least) in D then Sibling(least) else least
  }

  lemma SiblingIsNext(D: set<Rom>, m: Rom, code: seq<bool>)
    requires |code| == 8 && IsLeast(Family(D, code), m) && Sibling(m) in D
    ensures !m[63] && Sibling(m)[..8] == code && FirstDifference(m, Sibling(m), 63)
  {
    var s := Sibling(m);
    assert s[..63] == m[..63];
    Prefix(s, m, 8, 63);
    assert s in Family(D, code);
    assert Leq(m, s);
    if m[63] {
      assert FirstDifference(s, m, 63);
      Irreflexive(s, m);
    }
  }

  lemma JunctionOnTarget(D: set<Rom>, old_: Rom, m: Rom, k: nat)
    requires forall i :: 8 <= i < 64 ==> !old_[i]
    requires IsLeast(Family(D, old_[..8]), m)
    requires k < 63 && Junction(D, m, k)
    ensures m[k] == old_[k]
  {
    if k < 8 {
      assert m[..8][k] == old_[..8][k];
    } else if m[k] {
      var a :| a in Listening(D, m, k) && !a[k];
      Prefix(a, m, 8, k);
      assert a in Family(D, old_[..8]) && Leq(m, a);
      assert FirstDifference(a, m, k);
      Irreflexive(a, m);
    }
  }

  lemma JunctionAtLastBit(D: set<Rom>, m: Rom)
    requires m in D && Junction(D, m, 63)
    ensures Sibling(m) in D
  {
    var a :| a in Listening(D, m, 63) && !a[63];
    var b :| b in Listening(D, m, 63) && b[63];
    var other := if m[63] then a else b;
    assert other == other[..63] + [other[63]] == Sibling(m);
  }

  /** After target_search the path is fixed by the least ROM of the family alone. */
  lemma TargetReached(D: set<Rom>, old_: Rom, m: Rom, r: Rom)
    requires forall i :: 8 <= i < 64 ==> !old_[i]
    requires IsLeast(Family(D, old_[..8]), m)
    requires Follows(D, old_, 64, r)
    ensures r == FamilyTarget(D, m)
  {
    var t := FamilyTarget(D, m);
    if t != m { SiblingIsNext(D, m, old_[..8]); }
    forall k | 0 <= k < 64 && Junction(D, t, k) ensures t[k] == Direction(old_, 64, k) {
      if k < 63 {
        assert t[..k] == m[..k];
        assert Listening(D, t, k) == Listening(D, m, k);
        JunctionOnTarget(D, old_, m, k);
      } else if t == m {
        JunctionAtLastBit(D, m);
      }
    }
    FollowsUnique(D, old_, 64, r, t);
  }

  /** The family's least member is the one found exactly when no ROM of D differs from it in the last bit only. */
  lemma TargetIsLeast(D: set<Rom>, old_: Rom, m: Rom, r: Rom)
    requires forall i :: 8 <= i < 64 ==> !old_[i]
    requires IsLeast(Family(D, old_[..8]), m)
    requires Follows(D, old_, 64, r)
    ensures r in Family(D, old_[..8])
    ensures r == m <==> Sibling(m) !in D
  {
    TargetReached(D, old_, m, r);
    if Sibling(m) in D { SiblingIsNext(D, m, old_[..8]); }
  }
}
