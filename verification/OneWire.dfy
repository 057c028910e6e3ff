/**
 The 1-Wire search as libraries/OneWire runs it: one call walks the wired-AND bus from
 the root to one device, and three fields carry everything the next call needs.
 */
module OneWireBus {
  import opened RomOrder

  const SEARCH: bv8 := 0xF0
  const CONDITIONAL_SEARCH: bv8 := 0xEC

  datatype Slot = TrueBit | ComplementBit | DirectionBit

  /** The wire is high in a read slot unless a listening device pulls it low. */
  predicate WiredHigh(listening: set<Rom>, position: nat)
    requires position < 64
  {
    forall d :: d in listening ==> d[position]
  }

  predicate WiredComplementHigh(listening: set<Rom>, position: nat)
    requires position < 64
  {
    forall d :: d in listening ==> !d[position]
  }

  /** The wire and a fixed population of devices. */
  class Bus {
    const present: set<Rom>
    const alarming: set<Rom>
    var listening: set<Rom>
    var position: nat
    var slot: Slot

    constructor (present: set<Rom>, alarming: set<Rom>)
      requires alarming <= present
      ensures this.present == present && this.alarming == alarming && Valid()
    {
      this.present := present;
      this.alarming := alarming;
      listening := {};
      position := 0;
      slot := TrueBit;
    }

    ghost predicate Valid()
      reads this
    {
      alarming <= present && listening <= present
    }

    /** The devices that take part in a search. */
    ghost function Responding(conditional: bool): set<Rom> {
      if conditional then alarming else present
    }

    /** Reset pulse: true when some device answers with a presence pulse. */
    method Reset() returns (presence: bool)
      requires Valid()
      modifies this
      ensures Valid() && presence == (present != {})
      ensures listening == {}
    {
      listening, position, slot := {}, 0, TrueBit;
      presence := present != {};
    }

    method Command(code: bv8)
      requires Valid() && (code == SEARCH || code == CONDITIONAL_SEARCH)
      modifies this
      ensures Valid() && listening == Responding(code == CONDITIONAL_SEARCH) && position == 0 && slot == TrueBit
    {
      listening := if code == SEARCH then present else alarming;
      position, slot := 0, TrueBit;
    }

    /** A read slot: the wire is low as soon as one listening device pulls it low. */
    method Read() returns (high: bool)
      requires Valid() && position < 64 && slot != DirectionBit
      modifies this`slot
      ensures old(slot) == TrueBit ==> slot == ComplementBit && high == WiredHigh(listening, position)
      ensures old(slot) == ComplementBit ==> slot == DirectionBit && high == WiredComplementHigh(listening, position)
    {
      if slot == TrueBit {
        high := WiredHigh(listening, position);
        slot := ComplementBit;
      } else {
        high := WiredComplementHigh(listening, position);
        slot := DirectionBit;
      }
    }

    /** A write slot: devices with the other bit drop out until the next reset. */
    method Write(bit: bool)
      requires Valid() && position < 64 && slot == DirectionBit
      modifies this
      ensures Valid() && position == old(position) + 1 && slot == TrueBit
      ensures listening == set d | d in old(listening) && d[old(position)] == bit
    {
      listening := set d | d in listening && d[position] == bit;
      position, slot := position + 1, TrueBit;
    }
  }
}

module OneWireSearch {
  import opened Bits
  import opened RomOrder
  import opened OneWireBus

  /** What one step of the walk keeps: writing bit n of r moves from one level of the trie to the next. */
  lemma ListeningStep(D: set<Rom>, r: Rom, n: nat, bit: bool)
    requires n < 64
    ensures (set d | d in Listening(D, r, n) && d[n] == bit) == Listening(D, r[n := bit], n + 1)
  {
    var r' := r[n := bit];
    assert r'[..n + 1] == r[..n] + [bit];
    forall d | d in D ensures d[..n + 1] == d[..n] + [d[n]] {}
  }

  /** Junctions at or before level n do not depend on later bits. */
  lemma JunctionPrefix(D: set<Rom>, a: Rom, b: Rom, n: nat)
    requires n < 64 && a[..n] == b[..n]
    ensures Junction(D, a, n) == Junction(D, b, n)
  {
    assert Listening(D, a, n) == Listening(D, b, n);
  }

  lemma LastZeroPrefix(D: set<Rom>, a: Rom, b: Rom, n: nat)
    requires n <= 64 && a[..n] == b[..n]
    ensures LastZero(D, a, n) == LastZero(D, b, n)
  {
    if n > 0 {
      Prefix(a, b, n - 1, n);
      LastZeroPrefix(D, a, b, n - 1);
      JunctionPrefix(D, a, b, n - 1);
    }
  }

  /** The rule of Follows, for the bits chosen so far. */
  ghost predicate FollowsSoFar(D: set<Rom>, old_: Rom, discrepancy: nat, r: Rom, n: nat)
    requires n <= 64
  {
    forall k :: 0 <= k < n && Junction(D, r, k) ==> r[k] == Direction(old_, discrepancy, k)
  }

  /** The last junction inside the family byte where r went to the 0 side, or what was known before. */
  ghost function FamilyPending(D: set<Rom>, r: Rom, before: nat): nat {
    var p := LastZero(D, r, |r| / 8);
    if p > 0 then p else before
  }

  /** Where a walk stands after n bits: the path so far, and the two discrepancies it has noted. */
  datatype Walk = Walk(path: Rom, n: nat, lastZero: nat, family: nat) {
    ghost predicate OnPath(D: set<Rom>, old_: Rom, discrepancy: nat) {
      n <= 64 && path[n..] == old_[n..] && Listening(D, path, n) != {} && FollowsSoFar(D, old_, discrepancy, path, n)
    }

    ghost predicate Noted(D: set<Rom>, family0: nat) {
      n <= 64 && lastZero == LastZero(D, path, n) &&
      family == if n <= 8 then (if lastZero > 0 then lastZero else family0) else FamilyPending(D, path, family0)
    }

    /** Going down one level with the given bit. */
    ghost function Step(D: set<Rom>, bit: bool): Walk
      requires n < 64
    {
      var zero := Junction(D, path, n) && !bit;
      Walk(path[n := bit], n + 1, if zero then n + 1 else lastZero, if zero && n < 8 then n + 1 else family)
    }
  }

  /** What the two read slots say about the level reached. */
  lemma SlotsRead(D: set<Rom>, r: Rom, n: nat, id: bool, complement: bool)
    requires n < 64
    requires id == WiredHigh(Listening(D, r, n), n)
    requires complement == WiredComplementHigh(Listening(D, r, n), n)
    ensures id && complement <==> Listening(D, r, n) == {}
    ensures Listening(D, r, n) != {} ==> (id == complement <==> Junction(D, r, n))
  {
    if Listening(D, r, n) != {} {
      var d :| d in Listening(D, r, n);
    }
  }

  lemma StepKeepsListening(D: set<Rom>, r: Rom, n: nat, bit: bool)
    requires n < 64 && Listening(D, r, n) != {}
    requires Junction(D, r, n) || forall d :: d in Listening(D, r, n) ==> d[n] == bit
    ensures Listening(D, r[n := bit], n + 1) != {}
  {
    ListeningStep(D, r, n, bit);
    var d;
    if Junction(D, r, n) {
      d :| d in Listening(D, r, n) && d[n] == bit;
    } else {
      d :| d in Listening(D, r, n);
    }
    assert d in (set e | e in Listening(D, r, n) && e[n] == bit);
    assert d in Listening(D, r[n := bit], n + 1);
  }

  lemma FollowsStep(D: set<Rom>, old_: Rom, discrepancy: nat, r: Rom, n: nat, bit: bool)
    requires n < 64 && FollowsSoFar(D, old_, discrepancy, r, n)
    requires Junction(D, r, n) ==> bit == Direction(old_, discrepancy, n)
    ensures FollowsSoFar(D, old_, discrepancy, r[n := bit], n + 1)
  {
    var r' := r[n := bit];
    forall k | 0 <= k <= n ensures Junction(D, r', k) == Junction(D, r, k) {
      assert r'[..k] == r[..k];
      JunctionPrefix(D, r, r', k);
    }
  }

  lemma LastZeroStep(D: set<Rom>, r: Rom, n: nat, bit: bool)
    requires n < 64
    ensures LastZero(D, r[n := bit], n + 1) == if Junction(D, r, n) && !bit then n + 1 else LastZero(D, r, n)
  {
    assert r[n := bit][..n] == r[..n];
    JunctionPrefix(D, r, r[n := bit], n);
    LastZeroPrefix(D, r, r[n := bit], n);
  }

  lemma StepStaysOnPath(D: set<Rom>, old_: Rom, discrepancy: nat, w: Walk, bit: bool)
    requires w.OnPath(D, old_, discrepancy) && w.n < 64
    requires if Junction(D, w.path, w.n) then bit == Direction(old_, discrepancy, w.n)
             else forall d :: d in Listening(D, w.path, w.n) ==> d[w.n] == bit
    ensures w.Step(D, bit).OnPath(D, old_, discrepancy)
  {
    FollowsStep(D, old_, discrepancy, w.path, w.n, bit);
    StepKeepsListening(D, w.path, w.n, bit);
    var r := w.path[w.n := bit];
    assert r[w.n + 1..] == w.path[w.n..][1..] == old_[w.n..][1..] == old_[w.n + 1..];
  }

  lemma StepNotes(D: set<Rom>, family0: nat, w: Walk, bit: bool)
    requires w.Noted(D, family0) && w.n < 64
    ensures w.Step(D, bit).Noted(D, family0)
  {
    LastZeroStep(D, w.path, w.n, bit);
    if w.n >= 8 {
      var r := w.path[w.n := bit];
      assert r[..8] == w.path[..8];
      LastZeroPrefix(D, w.path, r, |r| / 8);
    }
  }

  /** w' is one level below w, on the side the rule prescribes. */
  ghost predicate GoesDown(D: set<Rom>, discrepancy: nat, w: Walk, w': Walk)
    requires w.n < 64
  {
    exists bit :: w' == w.Step(D, bit) && Prescribed(D, discrepancy, w, bit)
  }

  ghost predicate Prescribed(D: set<Rom>, discrepancy: nat, w: Walk, bit: bool)
    requires w.n < 64
  {
    if Junction(D, w.path, w.n) then bit == Direction(w.path, discrepancy, w.n)
    else forall d :: d in Listening(D, w.path, w.n) ==> d[w.n] == bit
  }

  lemma PrescribedStaysOnPath(D: set<Rom>, old_: Rom, discrepancy: nat, w: Walk, bit: bool)
    requires w.n < 64 && w.OnPath(D, old_, discrepancy) && Prescribed(D, discrepancy, w, bit)
    ensures w.Step(D, bit).OnPath(D, old_, discrepancy)
  {
    assert w.path[w.n] == w.path[w.n..][0] == old_[w.n..][0] == old_[w.n];
    StepStaysOnPath(D, old_, discrepancy, w, bit);
  }

  lemma PathStep(D: set<Rom>, old_: Rom, discrepancy: nat, w: Walk, w': Walk)
    requires w.n < 64 && w.OnPath(D, old_, discrepancy) && GoesDown(D, discrepancy, w, w')
    ensures w'.OnPath(D, old_, discrepancy)
  {
    var bit :| w' == w.Step(D, bit) && Prescribed(D, discrepancy, w, bit);
    PrescribedStaysOnPath(D, old_, discrepancy, w, bit);
  }

  lemma WalkStep(D: set<Rom>, old_: Rom, discrepancy: nat, family0: nat, w: Walk, w': Walk)
    requires w.n < 64 && w.OnPath(D, old_, discrepancy) && w.Noted(D, family0) && GoesDown(D, discrepancy, w, w')
    ensures w'.OnPath(D, old_, discrepancy) && w'.Noted(D, family0)
  {
    PathStep(D, old_, discrepancy, w, w');
    var bit :| w' == w.Step(D, bit) && Prescribed(D, discrepancy, w, bit);
    StepNotes(D, family0, w, bit);
  }

  /** After 64 bits the path is a device: the leaf to which the discrepancy leads. */
  lemma Arrived(D: set<Rom>, old_: Rom, discrepancy: nat, w: Walk)
    requires w.OnPath(D, old_, discrepancy) && w.n == |w.path|
    ensures Follows(D, old_, discrepancy, w.path)
    ensures LastZero(D, w.path, w.n) == Pending(D, w.path)
    ensures Pending(D, w.path) == 0 <==> IsGreatest(D, w.path)
  {
    var d :| d in Listening(D, w.path, w.n);
    assert d == d[..w.n] == w.path[..w.n] == w.path;
    PendingIsZero(D, w.path);
  }

  /** The finds of a search loop so far. */
  ghost predicate Found(D: set<Rom>, old_: Rom, discrepancy: nat, found: seq<Rom>)
    requires found != []
  {
    Chain(D, found) && Follows(D, old_, discrepancy, found[0]) &&
    !ZeroFamily(found[0]) && !ZeroFamily(found[|found| - 1])
  }

  /** Reaching r next extends the run. */
  lemma FoundStep(D: set<Rom>, old_: Rom, discrepancy: nat, found: seq<Rom>, r: Rom)
    requires !ZeroFamily(r)
    requires found == [] ==> Follows(D, old_, discrepancy, r)
    requires found != [] ==>
      var last := found[|found| - 1];
      Found(D, old_, discrepancy, found) && Pending(D, last) > 0 && Follows(D, last, Pending(D, last), r)
    ensures Found(D, old_, discrepancy, found + [r])
    ensures |found| + 1 <= |D|
  {
    if found != [] {
      ChainInD(D, found);
      FollowsFromLast(D, found[|found| - 1], r);
    }
    ChainBounded(D, found + [r]);
  }

  /** With a device left, the search does not stop. */
  lemma NoMore(D: set<Rom>, found: seq<Rom>, r: Rom)
    requires found != [] && Chain(D, found) && !ZeroFamily(found[|found| - 1])
    requires var last := found[|found| - 1];
      Pending(D, last) > 0 ==> Follows(D, last, Pending(D, last), r) && ZeroFamily(r)
    ensures Run(D, found)
  {
    var last := found[|found| - 1];
    ChainInD(D, found);
    PendingIsZero(D, last);
    if Pending(D, last) > 0 {
      FollowsFromLast(D, last, r);
      NextFamilyNonZero(last, r);
    }
  }

  /** What a whole search loop finds, from the state it is entered in. */
  ghost predicate SearchLoop(D: set<Rom>, old_: Rom, discrepancy: nat, leaf: Rom, found: seq<Rom>) {
    if D == {} then found == []
    else Follows(D, old_, discrepancy, leaf) &&
         if ZeroFamily(leaf) then found == [] else Run(D, found) && found[0] == leaf
  }

  /** From the start, the loop finds every device exactly once in wire order, if and
      only if no device has family code zero; else it finds nothing. */
  lemma LoopFromStart(D: set<Rom>, old_: Rom, leaf: Rom, found: seq<Rom>)
    requires D != {} && SearchLoop(D, old_, 0, leaf, found)
    ensures (forall d :: d in D ==> !ZeroFamily(d)) <==>
            (StrictlyIncreasing(found) && (set r | r in found) == D && |found| == |D|)
    ensures (exists d :: d in D && ZeroFamily(d)) ==> found == []
  {
    FollowsFromStart(D, old_, leaf);
    LeastZeroFamily(D, leaf);
    if !ZeroFamily(leaf) {
      RunFromLeast(D, found);
    } else {
      assert leaf in D;
    }
  }

  /** Aimed at a family that is present, the loop starts at that family and goes on to
      the end, each device once in wire order; family code zero alone finds nothing. */
  lemma LoopFromTarget(D: set<Rom>, old_: Rom, m: Rom, leaf: Rom, found: seq<Rom>)
    requires forall i :: 8 <= i < 64 ==> !old_[i]
    requires IsLeast(Family(D, old_[..8]), m)
    requires SearchLoop(D, old_, 64, leaf, found)
    ensures found == [] <==> old_[..8] == seq(8, _ => false)
    ensures found != [] ==>
      && found[0] == FamilyTarget(D, m) && found[0] in Family(D, old_[..8]) && StrictlyIncreasing(found)
      && (set r | r in found) == (set d | d in D && Leq(FamilyTarget(D, m), d))
      && |found| == |set d | d in D && Leq(FamilyTarget(D, m), d)|
  {
    assert m in D;
    TargetReached(D, old_, m, leaf);
    TargetIsLeast(D, old_, m, leaf);
    if found != [] { RunEnumerates(D, found); }
  }

  class OneWire {
    const bus: Bus
    const romNo: array<bv8>
    var lastDiscrepancy: nat
    var lastFamilyDiscrepancy: nat
    var lastDeviceFlag: bool

    ghost predicate Valid()
      reads this, bus
    {
      romNo.Length == 8 && bus.Valid() && lastDiscrepancy <= 64
    }

    /** ROM_NO as the 64 bits it stands for. */
    ghost function Path(): Rom
      reads romNo
      requires romNo.Length == 8
    {
      Wire(romNo[..])
    }

    /** The next call starts over. */
    ghost predicate AtStart()
      reads this
    {
      lastDiscrepancy == 0 && !lastDeviceFlag
    }

    /** r was found last, and the state is exactly what is needed to go on from r. */
    ghost predicate After(D: set<Rom>, r: Rom)
      reads this, romNo
      requires romNo.Length == 8
    {
      r in D && Path() == r && lastDiscrepancy == Pending(D, r) &&
      lastDeviceFlag == IsGreatest(D, r) && lastDeviceFlag == (lastDiscrepancy == 0)
    }

    constructor (bus: Bus)
      requires bus.Valid()
      ensures Valid() && AtStart() && this.bus == bus && fresh(romNo)
    {
      this.bus := bus;
      romNo := new bv8[8](_ => 0);
      lastDiscrepancy := 0;
      lastFamilyDiscrepancy := 0;
      lastDeviceFlag := false;
    }

    method ResetSearch()
      requires Valid()
      modifies this, romNo
      ensures Valid() && AtStart() && lastFamilyDiscrepancy == 0
      ensures forall i :: 0 <= i < 8 ==> romNo[i] == 0
    {
      lastDiscrepancy := 0;
      lastDeviceFlag := false;
      lastFamilyDiscrepancy := 0;
      var i := 7;
      while true
        invariant 0 <= i < 8 && Valid() && AtStart() && lastFamilyDiscrepancy == 0
        invariant forall j :: i < j < 8 ==> romNo[j] == 0
        decreases i
      {
        romNo[i] := 0;
        if i == 0 { break; }
        i := i - 1;
      }
    }

    /** Aim the next search at a family. */
    method TargetSearch(familyCode: bv8)
      requires Valid()
      modifies this, romNo
      ensures Valid() && lastDiscrepancy == 64 && !lastDeviceFlag && lastFamilyDiscrepancy == 0
      ensures romNo[0] == familyCode && forall i :: 8 <= i < 64 ==> !Path()[i]
    {
      romNo[0] := familyCode;
      for i := 1 to 8
        invariant romNo[0] == familyCode
        invariant forall j :: 1 <= j < i ==> romNo[j] == 0
      {
        romNo[i] := 0;
      }
      lastDiscrepancy := 64;
      lastFamilyDiscrepancy := 0;
      lastDeviceFlag := false;
      forall i | 8 <= i < 64 ensures !Path()[i] {
        WireAt(romNo[..], i / 8, i % 8);
      }
    }

    /** Read a bit and its complement. */
    method ReadPair() returns (idBit: bool, cmpIdBit: bool)
      requires bus.Valid() && bus.position < 64 && bus.slot == TrueBit
      modifies bus`slot
      ensures bus.slot == DirectionBit
      ensures idBit == WiredHigh(bus.listening, bus.position)
      ensures cmpIdBit == WiredComplementHigh(bus.listening, bus.position)
    {
      idBit := bus.Read();
      cmpIdBit := bus.Read();
    }

    /** The bit to write: the only one there is, or at a discrepancy the side that is due. */
    method Choose(idBitNumber: nat, ghost n: nat, romByteNumber: nat, romByteMask: bv8, lastZero: nat,
                  idBit: bool, cmpIdBit: bool)
      returns (searchDirection: bool, lastZero': nat)
      requires romNo.Length == 8 && n < 64 && idBitNumber == n + 1 && PointsAt(n, 8, romByteNumber, romByteMask)
      modifies this`lastFamilyDiscrepancy
      ensures searchDirection == if idBit != cmpIdBit then idBit else Direction(Path(), lastDiscrepancy, n)
      ensures var zero := idBit == cmpIdBit && !searchDirection;
        && lastZero' == (if zero then n + 1 else lastZero)
        && lastFamilyDiscrepancy == if zero && n < 8 then n + 1 else old(lastFamilyDiscrepancy)
    {
      lastZero' := lastZero;
      if idBit != cmpIdBit {
        searchDirection := idBit;
      } else {
        WireAt(romNo[..], romByteNumber, n - 8 * romByteNumber);
        if idBitNumber < lastDiscrepancy {
          searchDirection := romNo[romByteNumber] & romByteMask > 0;
        } else {
          searchDirection := idBitNumber == lastDiscrepancy;
        }
        if !searchDirection {
          lastZero' := idBitNumber;
          if lastZero' < 9 {
            lastFamilyDiscrepancy := lastZero';
          }
        }
      }
    }

    /** Shift the mask; past the top bit, go to the next byte. */
    static method NextBit(ghost n: nat, romByteNumber: nat, romByteMask: bv8)
      returns (romByteNumber': nat, romByteMask': bv8)
      requires romByteNumber < 8 && PointsAt(n, 8, romByteNumber, romByteMask)
      ensures PointsAt(n + 1, 8, romByteNumber', romByteMask')
    {
      PointsAtNext(n, 8, romByteNumber, romByteMask);
      romByteNumber', romByteMask' := romByteNumber, romByteMask << 1;
      if romByteMask' == 0 {
        romByteNumber', romByteMask' := romByteNumber + 1, 1;
      }
    }

    method CopyRom(newAddr: array<bv8>)
      requires romNo.Length == 8 && newAddr.Length == 8 && newAddr != romNo
      modifies newAddr
      ensures newAddr[..] == romNo[..]
    {
      for i := 0 to 8
        invariant forall j :: 0 <= j < i ==> newAddr[j] == romNo[j]
      {
        newAddr[i] := romNo[i];
      }
    }

    /** The machine state of a walk in progress. */
    ghost predicate Walking(D: set<Rom>, w: Walk, idBitNumber: nat, lastZero: nat, romByteNumber: nat, romByteMask: bv8)
      requires romNo.Length == 8
      reads this, romNo, bus
    {
      w == Walk(Path(), w.n, lastZero, lastFamilyDiscrepancy) && w.n <= 64 && idBitNumber == w.n + 1 &&
      bus.position == w.n && bus.slot == TrueBit && bus.listening == Listening(D, w.path, w.n) &&
      PointsAt(w.n, 8, romByteNumber, romByteMask)
    }

    /** One pass of the search loop: read a pair, choose, record, write. */
    method Level(ghost D: set<Rom>, ghost w: Walk, idBitNumber: nat, lastZero: nat,
                 romByteNumber: nat, romByteMask: bv8)
      returns (answered: bool, lastZero': nat, romByteNumber': nat, romByteMask': bv8, ghost w': Walk)
      requires Valid() && romByteNumber < 8 && Walking(D, w, idBitNumber, lastZero, romByteNumber, romByteMask)
      modifies this`lastFamilyDiscrepancy, romNo, bus
      ensures Valid()
      ensures answered == (Listening(D, w.path, w.n) != {})
      ensures !answered ==> Path() == w.path && w' == w
      ensures answered ==>
        && Walking(D, w', idBitNumber + 1, lastZero', romByteNumber', romByteMask')
        && GoesDown(D, lastDiscrepancy, w, w')
    {
      lastZero', romByteNumber', romByteMask', w' := lastZero, romByteNumber, romByteMask, w;
      var idBit, cmpIdBit := ReadPair();
      SlotsRead(D, w.path, w.n, idBit, cmpIdBit);
      if idBit && cmpIdBit {
        return false, lastZero', romByteNumber', romByteMask', w';
      }
      var searchDirection;
      searchDirection, lastZero' := Choose(idBitNumber, w.n, romByteNumber, romByteMask, lastZero, idBit, cmpIdBit);
      SetWireBit(romNo, romByteNumber, romByteMask, w.n - 8 * romByteNumber, searchDirection);
      ListeningStep(D, w.path, w.n, searchDirection);
      bus.Write(searchDirection);
      romByteNumber', romByteMask' := NextBit(w.n, romByteNumber, romByteMask);
      w' := w.Step(D, searchDirection);
      answered := true;
    }

    /**
     One search. With D the devices that answer the search command:
     after the last device, with no device, or when the device reached has family code
     zero, it reports nothing and the next call starts over; otherwise it reports the
     leaf of D that the remembered discrepancy leads to and remembers that leaf's own.
     */
    method Search(newAddr: array<bv8>, searchMode: bool) returns (found: bool)
      requires Valid() && newAddr.Length == 8 && newAddr != romNo
      modifies this, romNo, newAddr, bus
      ensures Valid()
      ensures !found ==> AtStart() && lastFamilyDiscrepancy == 0 && newAddr[..] == old(newAddr[..])
      ensures found ==> newAddr[..] == romNo[..]
      ensures old(lastDeviceFlag) || bus.Responding(!searchMode) == {} ==> !found && Path() == old(Path())
      ensures !old(lastDeviceFlag) && bus.Responding(!searchMode) != {} ==>
        var D := bus.Responding(!searchMode);
        && Follows(D, old(Path()), old(lastDiscrepancy), Path())
        && found == !ZeroFamily(Path())
        && (found ==> After(D, Path()))
        && (found ==> lastFamilyDiscrepancy == FamilyPending(D, Path(), old(lastFamilyDiscrepancy)))
    {
      var idBitNumber, lastZero, romByteNumber := 1, 0, 0;
      var romByteMask: bv8 := 1;
      var searchResult := false;
      ghost var D, old_, discrepancy := bus.Responding(!searchMode), Path(), lastDiscrepancy;
      ghost var family0 := lastFamilyDiscrepancy;

      if !lastDeviceFlag {
        var presence := bus.Reset();
        if !presence {
          lastDiscrepancy := 0;
          lastDeviceFlag := false;
          lastFamilyDiscrepancy := 0;
          return false;
        }
        if searchMode { bus.Command(SEARCH); } else { bus.Command(CONDITIONAL_SEARCH); }
        ghost var w := Walk(old_, 0, 0, family0);
        assert bus.listening == Listening(D, old_, 0);
        while romByteNumber < 8
          invariant Valid() && newAddr[..] == old(newAddr[..])
          invariant lastDiscrepancy == discrepancy && !lastDeviceFlag
          invariant Walking(D, w, idBitNumber, lastZero, romByteNumber, romByteMask)
          invariant D == {} ==> w.n == 0 && w.path == old_
          invariant D != {} ==> w.OnPath(D, old_, discrepancy) && w.Noted(D, family0)
          decreases 64 - w.n
        {
          var answered;
          ghost var before := w;
          answered, lastZero, romByteNumber, romByteMask, w :=
            Level(D, w, idBitNumber, lastZero, romByteNumber, romByteMask);
          if !answered {
            break;
          }
          WalkStep(D, old_, discrepancy, family0, before, w);
          idBitNumber := idBitNumber + 1;
        }
        if !(idBitNumber < 65) {
          Arrived(D, old_, discrepancy, w);
          lastDiscrepancy := lastZero;
          if lastDiscrepancy == 0 {
            lastDeviceFlag := true;
          }
          searchResult := true;
        }
      }
      ZeroByteBits(romNo[..]);
      if !searchResult || romNo[0] == 0 {
        lastDiscrepancy := 0;
        lastDeviceFlag := false;
        lastFamilyDiscrepancy := 0;
        searchResult := false;
      } else {
        CopyRom(newAddr);
      }
      return searchResult;
    }

    /**
     The enumeration loop of the library's users: search until nothing more is found.
     It may start over, or from where TargetSearch has aimed.
     */
    method SearchAll(newAddr: array<bv8>, searchMode: bool) returns (found: seq<Rom>, ghost leaf: Rom)
      requires Valid() && newAddr.Length == 8 && newAddr != romNo && !lastDeviceFlag
      modifies this, romNo, newAddr, bus
      ensures Valid() && AtStart()
      ensures SearchLoop(bus.Responding(!searchMode), old(Path()), old(lastDiscrepancy), leaf, found)
    {
      ghost var D, old_, discrepancy := bus.Responding(!searchMode), Path(), lastDiscrepancy;
      found, leaf := [], Path();
      while true
        invariant Valid() && D == bus.Responding(!searchMode)
        invariant found == [] ==> Path() == old_ && lastDiscrepancy == discrepancy && !lastDeviceFlag
        invariant found != [] ==>
          After(D, found[|found| - 1]) && Found(D, old_, discrepancy, found) && leaf == found[0]
        invariant |found| <= |D|
        decreases |D| - |found|
      {
        var ok := Search(newAddr, searchMode);
        if found == [] { leaf := Path(); }
        if !ok {
          if found != [] { NoMore(D, found, Path()); }
          break;
        }
        FoundStep(D, old_, discrepancy, found, Path());
        found := found + [Wire(newAddr[..])];
      }
    }
  }
}
