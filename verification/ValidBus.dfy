/** Searching a bus on which every ROM code carries its CRC. */
module ValidBus {
  import opened Bits
  import opened RomOrder
  import opened OneWireCrc
  import opened AlarmSearch

  ghost predicate AllValid(D: set<Rom>) {
    forall d :: d in D ==> exists bytes :: ValidRom(bytes) && Wire(bytes) == d
  }

  /** Valid ROM codes never differ in the last bit only. */
  lemma NoValidSibling(a: seq<bv8>, b: seq<bv8>)
    requires ValidRom(a) && ValidRom(b)
    ensures Wire(b) != Sibling(Wire(a))
  {
    if Wire(b) == Sibling(Wire(a)) {
      forall j | 0 <= j < 7 ensures a[j] == b[j] {
        forall k | 0 <= k < 8 ensures Bit(a[j], k) == Bit(b[j], k) {
          WireAt(a, j, k);
          WireAt(b, j, k);
        }
        SameBitsSameByte(a[j], b[j]);
      }
      assert a[..7] == b[..7];
      WireAt(a, 7, 7);
      WireAt(b, 7, 7);
    }
  }

  /** So on such a bus the search after target_search finds the least device of the family. */
  lemma TargetOnValidBus(D: set<Rom>, old_: Rom, m: Rom, r: Rom)
    requires AllValid(D)
    requires forall i :: 8 <= i < 64 ==> !old_[i]
    requires IsLeast(Family(D, old_[..8]), m)
    requires Follows(D, old_, 64, r)
    ensures r == m
  {
    assert m in D;
    var a :| ValidRom(a) && Wire(a) == m;
    if Sibling(m) in D {
      var b :| ValidRom(b) && Wire(b) == Sibling(m);
      NoValidSibling(a, b);
    }
    TargetIsLeast(D, old_, m, r);
  }

  /** Two different valid ROM codes differ before the last byte. */
  lemma ValidRomsDifferBefore(a: seq<bv8>, b: seq<bv8>)
    requires ValidRom(a) && ValidRom(b) && Wire(a)[..56] == Wire(b)[..56]
    ensures a == b
  {
    forall j | 0 <= j < 7 ensures a[j] == b[j] {
      forall k | 0 <= k < 8 ensures Bit(a[j], k) == Bit(b[j], k) {
        WireAt(a, j, k);
        WireAt(b, j, k);
        assert Wire(a)[..56][8 * j + k] == Wire(b)[..56][8 * j + k];
      }
      SameBitsSameByte(a[j], b[j]);
    }
    assert a[..7] == b[..7];
    assert a == a[..7] + [a[7]] && b == b[..7] + [b[7]];
  }

  /** With an unsigned char the alarm search is exhausted if and only if the device found is the only one. */
  lemma UnsignedCharDone(D: set<Rom>, start: Rom, found: seq<Rom>)
    requires AllValid(D) && start[..56] == seq(56, _ => false) && StuckRun(D, start, found) && found != []
    ensures IsGreatest(D, found[0]) <==> |D| <= 1
  {
    var r := found[0];
    assert StuckAt(D, start, found, 0);
    OnlyMember(D, r);
    if d :| d in D && d != r {
      var a :| ValidRom(a) && Wire(a) == d;
      var b :| ValidRom(b) && Wire(b) == r;
      if d[..56] == r[..56] { ValidRomsDifferBefore(a, b); }
      UnsignedCharNeverDone(D, start, r, d, r);
    }
  }

  /** So where plain char is unsigned, the handler loop ends if and only if at most one
      device has an alarm; otherwise it has not ended after any number of calls. */
  method AlarmLoopEnds(dt: DallasTemperature, newAddr: array<bv8>, calls: nat) returns (ended: bool)
    requires dt.Valid() && !dt.charSigned && newAddr.Length == 8 && newAddr != dt.alarmSearchAddress
    requires AllValid(dt.bus.alarming) && calls > 1
    modifies dt, dt.alarmSearchAddress, newAddr, dt.bus
    ensures ended <==> |dt.bus.alarming| <= 1
  {
    var found;
    ghost var start;
    hide StuckRun, IsGreatest, AllValid;
    found, ended, start := dt.ListAlarmsUnsigned(newAddr, calls);
    if dt.bus.alarming != {} {
      UnsignedCharDone(dt.bus.alarming, start, found);
    }
  }

  lemma OnlyMember(D: set<Rom>, r: Rom)
    requires r in D
    ensures D == {r} <==> |D| <= 1
  {
    assert |D - {r}| == |D| - 1;
    if |D| <= 1 { assert D - {r} == {}; }
  }
}
