/**
 DallasTemperature's own search for alarming devices: a second implementation of the
 1-Wire search that remembers its junction as a `char` counted from 0, -1 for none.
 */
module AlarmSearch {
  import opened Bits
  import opened RomOrder
  import opened OneWireBus
  import opened OneWireSearch

  /** The junction to store after r was found, when the call began with junction j. */
  ghost function NewJunction(D: set<Rom>, r: Rom, j: int, n: nat): int
    requires n <= 64
  {
    if (0 <= j < n && Junction(D, r, j)) || LastZero(D, r, n) > j + 1 then LastZero(D, r, n) - 1 else j
  }

  lemma NewJunctionStep(D: set<Rom>, r: Rom, j: int, n: nat, bit: bool)
    requires n < 64 && -1 <= j
    requires n == j && Junction(D, r, n) ==> bit
    ensures LastZero(D, r[n := bit], n + 1) == if Junction(D, r, n) && !bit then n + 1 else LastZero(D, r, n)
    ensures NewJunction(D, r[n := bit], j, n + 1) ==
            if !Junction(D, r, n) || n < j then NewJunction(D, r, j, n)
            else if n == j then LastZero(D, r, n) - 1
            else if bit then NewJunction(D, r, j, n) else n
  {
    LastZeroStep(D, r, n, bit);
    if 0 <= j <= n {
      assert r[n := bit][..j] == r[..j];
      JunctionPrefix(D, r, r[n := bit], j);
    }
  }

  class DallasTemperature {
    const bus: Bus
    /** Whether the compiler's plain `char` is signed. */
    const charSigned: bool
    const alarmSearchAddress: array<bv8>
    var alarmSearchJunction: int
    var alarmSearchExhausted: bool

    /** The char that -1 is stored as. */
    function None(): int { if charSigned then -1 else 255 }

    ghost predicate Valid()
      reads this, bus
    {
      alarmSearchAddress.Length == 8 && bus.Valid() &&
      if charSigned then -1 <= alarmSearchJunction < 64 else alarmSearchJunction == 255
    }

    ghost function Path(): Rom
      reads alarmSearchAddress
      requires alarmSearchAddress.Length == 8
    {
      Wire(alarmSearchAddress[..])
    }

    /** r was found last, and the state is exactly what is needed to go on from r. */
    ghost predicate After(D: set<Rom>, r: Rom)
      reads this, alarmSearchAddress
      requires alarmSearchAddress.Length == 8
    {
      r in D && Path() == r && alarmSearchJunction + 1 == Pending(D, r) && alarmSearchExhausted == IsGreatest(D, r)
    }

    constructor (bus: Bus, charSigned: bool)
      requires bus.Valid()
      ensures Valid() && this.bus == bus && this.charSigned == charSigned && fresh(alarmSearchAddress)
      ensures alarmSearchJunction == None() && !alarmSearchExhausted
    {
      this.bus := bus;
      this.charSigned := charSigned;
      alarmSearchAddress := new bv8[8](_ => 0);
      alarmSearchJunction := if charSigned then -1 else 255;
      alarmSearchExhausted := false;
    }

    /** Only the first seven address bytes are cleared. */
    method ResetAlarmSearch()
      requires Valid()
      modifies this, alarmSearchAddress
      ensures Valid() && alarmSearchJunction == None() && !alarmSearchExhausted
      ensures Path()[..56] == seq(56, _ => false) && Path()[56..] == old(Path())[56..]
    {
      alarmSearchJunction := None();
      alarmSearchExhausted := false;
      for i := 0 to 7
        invariant Valid() && alarmSearchJunction == None() && !alarmSearchExhausted
        invariant forall j :: 0 <= j < i ==> alarmSearchAddress[j] == 0
        invariant alarmSearchAddress[7] == old(alarmSearchAddress[7])
      {
        alarmSearchAddress[i] := 0;
      }
      forall k | 0 <= k < 64 ensures Path()[k] == if k < 56 then false else old(Path())[k] {
        WireAt(alarmSearchAddress[..], k / 8, k % 8);
        WireAt(old(alarmSearchAddress[..]), k / 8, k % 8);
      }
    }

    /** The three notes of a walk that began with junction j and has gone n levels along r. */
    ghost predicate Noted(D: set<Rom>, r: Rom, n: nat, j: int, lastJunction: int, done: bool)
      requires n <= 64
      reads this
    {
      alarmSearchJunction == NewJunction(D, r, j, n) &&
      (n <= j ==> lastJunction == if LastZero(D, r, n) == 0 then None() else LastZero(D, r, n) - 1) &&
      done == (LastZero(D, r, n) == 0)
    }

    /** The bit of the address at level i. */
    method LastBit(i: nat) returns (bit: bool)
      requires alarmSearchAddress.Length == 8 && i < 64
      ensures bit == Path()[i]
    {
      WireAt(alarmSearchAddress[..], i / 8, i % 8);
      bit := alarmSearchAddress[i / 8] & Mask(i % 8) != 0;
    }

    /** The bit to write at level i: the only one there is, or at a junction the side that is due. */
    method Choose(i: nat, a0: bool, nota: bool, ghost D: set<Rom>, ghost j: int, lastJunction: int, done: bool)
      returns (a: bool, lastJunction': int, done': bool)
      requires Valid() && i < 64 && -1 <= j && (!charSigned ==> j == 255)
      requires Junction(D, Path(), i) == (!a0 && !nota) && Noted(D, Path(), i, j, lastJunction, done)
      modifies this`alarmSearchJunction
      ensures Valid() && a == if !a0 && !nota then Direction(Path(), j + 1, i) else a0
      ensures Noted(D, Path()[i := a], i + 1, j, lastJunction', done')
    {
      hide Junction, LastZero;
      a, lastJunction', done' := a0, lastJunction, done;
      if !a && !nota {
        if i == alarmSearchJunction {
          a := true;
          alarmSearchJunction := lastJunction;
        } else if i < alarmSearchJunction {
          var before := LastBit(i);
          if before {
            a := true;
          } else {
            a := false;
            done' := false;
            lastJunction' := i;
          }
        } else {
          a := false;
          alarmSearchJunction := i;
          done' := false;
        }
      }
      NewJunctionStep(D, Path(), j, i, a);
    }

    method SetPathBit(i: nat, a: bool)
      requires alarmSearchAddress.Length == 8 && i < 64
      modifies alarmSearchAddress
      ensures Path() == old(Path())[i := a]
    {
      SetWireBit(alarmSearchAddress, i / 8, Mask(i % 8), i % 8, a);
    }

    method CopyAddress(newAddr: array<bv8>)
      requires alarmSearchAddress.Length == 8 && newAddr.Length == 8 && newAddr != alarmSearchAddress
      modifies newAddr
      ensures newAddr[..] == alarmSearchAddress[..]
    {
      for i := 0 to 8
        invariant forall j :: 0 <= j < i ==> newAddr[j] == alarmSearchAddress[j]
      {
        newAddr[i] := alarmSearchAddress[i];
      }
    }

    /** The machine state of a walk in progress that began with junction j. */
    ghost predicate Walking(D: set<Rom>, w: Walk, j: int, lastJunction: int, done: bool)
      requires alarmSearchAddress.Length == 8
      reads this, alarmSearchAddress, bus
    {
      w.path == Path() && w.n <= 64 &&
      bus.position == w.n && bus.slot == TrueBit && bus.listening == Listening(D, w.path, w.n) &&
      Noted(D, w.path, w.n, j, lastJunction, done)
    }

    /** The two bits read at level i. */
    method ReadBits(i: nat, ghost D: set<Rom>, ghost r: Rom) returns (a: bool, nota: bool)
      requires bus.Valid() && i == bus.position < 64 && bus.slot == TrueBit && bus.listening == Listening(D, r, i)
      modifies bus`slot
      ensures bus.slot == DirectionBit && (a && nota <==> Listening(D, r, i) == {})
      ensures !(a && nota) ==> Junction(D, r, i) == (!a && !nota)
      ensures !(a && nota) && !Junction(D, r, i) ==> forall d :: d in Listening(D, r, i) ==> d[i] == a
    {
      a := bus.Read();
      nota := bus.Read();
      SlotsRead(D, r, i, a, nota);
    }

    /** One pass of the search loop. */
    method Level(i: nat, ghost D: set<Rom>, ghost w: Walk, ghost j: int, lastJunction: int, done: bool)
      returns (answered: bool, lastJunction': int, done': bool, ghost w': Walk)
      requires Valid() && i == w.n < 64 && -1 <= j && (!charSigned ==> j == 255) && Walking(D, w, j, lastJunction, done)
      modifies this`alarmSearchJunction, alarmSearchAddress, bus
      ensures Valid()
      ensures answered == (Listening(D, w.path, w.n) != {})
      ensures !answered ==> Path() == w.path && alarmSearchJunction == old(alarmSearchJunction)
      ensures answered ==> Walking(D, w', j, lastJunction', done') && GoesDown(D, j + 1, w, w')
    {
      hide Junction, NewJunction, LastZero, Listening, Direction;
      lastJunction', done', w' := lastJunction, done, w;
      var a, nota := ReadBits(i, D, w.path);
      if a && nota {
        return false, lastJunction', done', w';
      }
      a, lastJunction', done' := Choose(i, a, nota, D, j, lastJunction, done);
      SetPathBit(i, a);
      ListeningStep(D, w.path, i, a);
      bus.Write(a);
      w' := w.Step(D, a);
      assert Prescribed(D, j + 1, w, a);
      answered := true;
    }

    /** The search loop: down all 64 levels, or nothing if nobody answers. */
    method Descend() returns (answered: bool, done: bool)
      requires Valid() && bus.position == 0 && bus.slot == TrueBit
      modifies this`alarmSearchJunction, alarmSearchAddress, bus
      ensures Valid()
      ensures answered == (old(bus.listening) != {})
      ensures !answered ==> Path() == old(Path()) && alarmSearchJunction == old(alarmSearchJunction)
      ensures answered ==>
        && Follows(old(bus.listening), old(Path()), old(alarmSearchJunction) + 1, Path())
        && done == (Pending(old(bus.listening), Path()) == 0)
        && alarmSearchJunction == NewJunction(old(bus.listening), Path(), old(alarmSearchJunction), |Path()|)
    {
      hide Follows, Junction, LastZero;
      var lastJunction := None();
      done := true;
      ghost var D, old_, j := bus.listening, Path(), alarmSearchJunction;
      ghost var w := Walk(old_, 0, 0, 0);
      assert Listening(D, old_, 0) == D;
      for i := 0 to 64
        invariant Valid() && i == w.n && Walking(D, w, j, lastJunction, done)
        invariant D == {} ==> i == 0 && w.path == old_
        invariant D != {} ==> w.OnPath(D, old_, j + 1)
      {
        ghost var before := w;
        answered, lastJunction, done, w := Level(i, D, w, j, lastJunction, done);
        if !answered {
          return;
        }
        PathStep(D, old_, j + 1, before, w);
      }
      Arrived(D, old_, j + 1, w);
      answered := true;
    }

    /**
     One alarm search. An exhausted search, and one that no device answers, reports
     nothing and changes nothing; otherwise it reports the leaf of the alarming devices
     to which the remembered junction leads.
     */
    method AlarmSearch(newAddr: array<bv8>) returns (found: bool)
      requires Valid() && newAddr.Length == 8 && newAddr != alarmSearchAddress
      modifies this, alarmSearchAddress, newAddr, bus
      ensures Valid()
      ensures found == (!old(alarmSearchExhausted) && bus.alarming != {})
      ensures !found ==>
        && newAddr[..] == old(newAddr[..]) && Path() == old(Path())
        && alarmSearchJunction == old(alarmSearchJunction) && alarmSearchExhausted == old(alarmSearchExhausted)
      ensures found ==>
        && newAddr[..] == alarmSearchAddress[..]
        && Follows(bus.alarming, old(Path()), old(alarmSearchJunction) + 1, Path())
        && alarmSearchExhausted == IsGreatest(bus.alarming, Path())
        && alarmSearchJunction == NewJunction(bus.alarming, Path(), old(alarmSearchJunction), |Path()|)
    {
      if alarmSearchExhausted { return false; }
      var presence := bus.Reset();
      if !presence { return false; }
      bus.Command(CONDITIONAL_SEARCH);
      var answered, done := Descend();
      if !answered { return false; }
      PendingIsZero(bus.alarming, Path());
      if done { alarmSearchExhausted := true; }
      CopyAddress(newAddr);
      return true;
    }

    /** The loop that runs the alarm handler: reset, then search until nothing is found. */
    method ListAlarms(newAddr: array<bv8>) returns (found: seq<Rom>)
      requires Valid() && charSigned && newAddr.Length == 8 && newAddr != alarmSearchAddress
      modifies this, alarmSearchAddress, newAddr, bus
      ensures Valid()
      ensures StrictlyIncreasing(found) && (set r | r in found) == bus.alarming && |found| == |bus.alarming|
      ensures alarmSearchExhausted == (bus.alarming != {})
    {
      ghost var D := bus.alarming;
      ResetAlarmSearch();
      ghost var old_ := Path();
      found := [];
      while true
        invariant Valid() && D == bus.alarming && |found| <= |D|
        invariant found == [] ==> alarmSearchJunction == -1 && !alarmSearchExhausted
        invariant found != [] ==> Chain(D, found) && IsLeast(D, found[0]) && After(D, found[|found| - 1])
        decreases |D| - |found|
      {
        ghost var before := Path();
        var ok := AlarmSearch(newAddr);
        if !ok {
          break;
        }
        ListStep(D, found, before, Path());
        found := found + [Wire(newAddr[..])];
      }
      if found != [] {
        RunFromLeast(D, found);
      }
    }

    /** The same loop where plain char is unsigned, cut after the given number of calls. */
    method ListAlarmsUnsigned(newAddr: array<bv8>, calls: nat) returns (found: seq<Rom>, ended: bool, ghost start: Rom)
      requires Valid() && !charSigned && newAddr.Length == 8 && newAddr != alarmSearchAddress
      modifies this, alarmSearchAddress, newAddr, bus
      ensures Valid() && start[..56] == seq(56, _ => false)
      ensures StuckRun(bus.alarming, start, found)
      ensures !ended ==> |found| == calls
      ensures bus.alarming == {} ==> found == [] && ended == (calls > 0)
      ensures bus.alarming != {} && calls > 1 ==> found != [] && ended == IsGreatest(bus.alarming, found[0])
    {
      ResetAlarmSearch();
      start, found, ended := Path(), [], false;
      ghost var D := bus.alarming;
      while |found| < calls
        invariant Valid() && D == bus.alarming && |found| <= calls
        invariant D == {} ==> found == []
        invariant StuckRun(D, start, found) && Path() == (if found == [] then start else found[|found| - 1])
        invariant alarmSearchExhausted == (found != [] && IsGreatest(D, found[0]))
        invariant |found| > 1 ==> !alarmSearchExhausted
        decreases calls - |found|
      {
        var ok := AlarmSearch(newAddr);
        if !ok {
          ended := true;
          break;
        }
        StuckStep(D, start, found, Path());
        found := found + [Wire(newAddr[..])];
      }
    }
  }

  /** A signed junction follows the discrepancy of the other search, always one less. */
  lemma AlarmFound(D: set<Rom>, prev: Rom, discrepancy: nat, r: Rom)
    requires discrepancy > 0 ==> prev in D && discrepancy == Pending(D, prev)
    requires Follows(D, prev, discrepancy, r)
    ensures if discrepancy == 0 then IsLeast(D, r) else IsNext(D, prev, r)
    ensures NewJunction(D, r, discrepancy - 1, |r|) + 1 == Pending(D, r)
  {
    if discrepancy == 0 {
      FollowsFromStart(D, prev, r);
    } else {
      FollowsFromLast(D, prev, r);
      SharesPrefix(D, prev, r, discrepancy - 1);
      JunctionPrefix(D, prev, r, discrepancy - 1);
    }
  }

  lemma ListStep(D: set<Rom>, found: seq<Rom>, prev: Rom, r: Rom)
    requires found == [] ==> Follows(D, prev, 0, r)
    requires found != [] ==>
      && Chain(D, found) && IsLeast(D, found[0]) && found[|found| - 1] == prev && prev in D
      && !IsGreatest(D, prev) && Follows(D, prev, Pending(D, prev), r)
    ensures Chain(D, found + [r]) && IsLeast(D, (found + [r])[0]) && |found| + 1 <= |D|
    ensures NewJunction(D, r, if found == [] then -1 else Pending(D, prev) - 1, |r|) + 1 == Pending(D, r)
  {
    if found != [] { PendingIsZero(D, prev); }
    AlarmFound(D, prev, if found == [] then 0 else Pending(D, prev), r);
    ChainBounded(D, found + [r]);
  }

  /** Equal discrepancies lead both searches to the same leaf. */
  lemma SameLeaf(D: set<Rom>, prev: Rom, prev2: Rom, discrepancy: nat, r: Rom, r2: Rom)
    requires discrepancy > 0 ==> prev == prev2 && prev in D && discrepancy == Pending(D, prev)
    requires Follows(D, prev, discrepancy, r) && Follows(D, prev2, discrepancy, r2)
    ensures r == r2 && NewJunction(D, r, discrepancy - 1, |r|) + 1 == Pending(D, r)
  {
    AlarmFound(D, prev2, discrepancy, r2);
    if discrepancy == 0 {
      FollowsFromStart(D, prev, r);
      LeastUnique(D, r, r2);
    } else {
      FollowsUnique(D, prev, discrepancy, r, r2);
    }
  }

  /** The two searches are about to do the same: both start over, or both go on from the
      same ROM, with the junction one less than the discrepancy. */
  ghost predicate InStep(ow: OneWire, dt: DallasTemperature, D: set<Rom>)
    reads ow, ow.romNo, dt, dt.alarmSearchAddress
    requires ow.romNo.Length == 8 && dt.alarmSearchAddress.Length == 8
  {
    dt.alarmSearchJunction + 1 == ow.lastDiscrepancy && dt.alarmSearchExhausted == ow.lastDeviceFlag &&
    (ow.AtStart() || (ow.After(D, ow.Path()) && dt.After(D, ow.Path())))
  }

  /**
     One call of each, on buses with the same alarming devices, none of family code zero:
     the same answer and the same address, and they stay in step as long as devices are
     found. After the last device the general search starts over, the alarm search stays put.
   */
  method Both(ow: OneWire, dt: DallasTemperature, addr1: array<bv8>, addr2: array<bv8>) returns (found: bool)
    requires ow.Valid() && dt.Valid() && dt.charSigned && addr1.Length == 8 && addr2.Length == 8
    requires ow.bus != dt.bus && ow.bus.alarming == dt.bus.alarming
    requires ow.romNo != dt.alarmSearchAddress && addr1 != addr2
    requires addr1 !in {ow.romNo, dt.alarmSearchAddress} && addr2 !in {ow.romNo, dt.alarmSearchAddress}
    requires forall d :: d in ow.bus.alarming ==> !ZeroFamily(d)
    requires InStep(ow, dt, ow.bus.alarming)
    modifies ow, ow.romNo, ow.bus, dt, dt.alarmSearchAddress, dt.bus, addr1, addr2
    ensures ow.Valid() && dt.Valid()
    ensures found == (!old(dt.alarmSearchExhausted) && ow.bus.alarming != {})
    ensures found ==> addr1[..] == addr2[..] && InStep(ow, dt, ow.bus.alarming)
    ensures !found ==> ow.AtStart() && dt.alarmSearchExhausted == old(dt.alarmSearchExhausted)
  {
    hide Follows, IsGreatest, Pending, NewJunction, Listening, ZeroFamily;
    ghost var D, prev, discrepancy := ow.bus.alarming, ow.Path(), ow.lastDiscrepancy;
    ghost var prev2 := dt.Path();
    found := ow.Search(addr1, false);
    var found2 := dt.AlarmSearch(addr2);
    if found2 {
      SameLeaf(D, prev, prev2, discrepancy, ow.Path(), dt.Path());
      WireInjective(ow.romNo[..], dt.alarmSearchAddress[..]);
    }
  }

  // ---------- where plain char is unsigned ----------

  /** The finds of a loop whose junction is stuck at 255. */
  ghost predicate StuckRun(D: set<Rom>, start: Rom, found: seq<Rom>) {
    forall i :: 0 <= i < |found| ==> StuckAt(D, start, found, i)
  }

  ghost predicate StuckAt(D: set<Rom>, start: Rom, found: seq<Rom>, i: nat)
    requires i < |found|
  {
    Follows(D, if i == 0 then start else found[i - 1], 256, found[i])
  }

  /** With an unsigned char -1 is stored as 255, every junction lies before it, and every
      call finds the first ROM again. */
  lemma {:induction false} UnsignedCharRepeats(D: set<Rom>, start: Rom, found: seq<Rom>, i: nat)
    requires StuckRun(D, start, found) && i < |found|
    ensures found[i] == found[0] && found[i] in D
    ensures NewJunction(D, found[i], 255, |found[i]|) == 255
  {
    assert StuckAt(D, start, found, i);
    if i > 0 {
      UnsignedCharRepeats(D, start, found, i - 1);
      assert found[i - 1] in D;
      assert Follows(D, found[i - 1], 256, found[i - 1]);
      FollowsUnique(D, found[i - 1], 256, found[i], found[i - 1]);
    }
  }

  lemma StuckStep(D: set<Rom>, start: Rom, found: seq<Rom>, r: Rom)
    requires StuckRun(D, start, found)
    requires Follows(D, if found == [] then start else found[|found| - 1], 256, r)
    ensures StuckRun(D, start, found + [r]) && (found != [] ==> r == found[0])
  {
    var all := found + [r];
    forall i | 0 <= i < |all| ensures StuckAt(D, start, all, i) {
      if i < |found| { assert StuckAt(D, start, found, i); }
    }
    UnsignedCharRepeats(D, start, all, |found|);
  }

  /** So a loop on such a compiler covers the alarming devices exactly when there is only one. */
  lemma UnsignedCharCovers(D: set<Rom>, start: Rom, found: seq<Rom>)
    requires StuckRun(D, start, found) && found != []
    ensures (set r | r in found) == D <==> |D| == 1
  {
    var s := set r | r in found;
    forall r | r in found ensures r == found[0] {
      var i :| 0 <= i < |found| && found[i] == r;
      UnsignedCharRepeats(D, start, found, i);
    }
    assert s == {found[0]};
    if |D| == 1 {
      UnsignedCharRepeats(D, start, found, 0);
      assert |D - {found[0]}| == 0;
      assert D - {found[0]} == {};
    }
  }

  /** Two alarming devices that differ before the last byte: the one found is not the
      greatest, so the search is never exhausted and the loop never ends. */
  lemma UnsignedCharNeverDone(D: set<Rom>, start: Rom, r: Rom, a: Rom, b: Rom)
    requires start[..56] == seq(56, _ => false) && Follows(D, start, 256, r)
    requires a in D && b in D && a[..56] != b[..56]
    ensures !IsGreatest(D, r)
  {
    if IsGreatest(D, r) {
      GreatestAgrees(D, start, r, a);
      GreatestAgrees(D, start, r, b);
    }
  }

  /** At every junction before the last byte the walk has gone to the 0 side. */
  lemma GreatestAgrees(D: set<Rom>, start: Rom, r: Rom, d: Rom)
    requires start[..56] == seq(56, _ => false) && Follows(D, start, 256, r)
    requires IsGreatest(D, r) && d in D
    ensures d[..56] == r[..56]
  {
    if d != r {
      var k := FirstDifferenceExists(r, d);
      PartingIsJunction(D, r, d, k);
      if k < 56 {
        assert !start[..56][k];
        assert Less(r, d);
        Irreflexive(r, d);
      } else {
        Prefix(d, r, 56, k);
      }
    }
  }

  /** Two such devices, whatever the address held before. */
  lemma TwoAlarmsNeverDone(start: Rom, r: Rom)
    requires start[..56] == seq(56, _ => false)
    requires Follows({OnlyBit(0), OnlyBit(1)}, start, 256, r)
    ensures !IsGreatest({OnlyBit(0), OnlyBit(1)}, r)
  {
    assert OnlyBit(0)[..56][0] && !OnlyBit(1)[..56][0];
    UnsignedCharNeverDone({OnlyBit(0), OnlyBit(1)}, start, r, OnlyBit(0), OnlyBit(1));
  }

  function OnlyBit(i: nat): Rom { seq(64, k => k == i) }
}
