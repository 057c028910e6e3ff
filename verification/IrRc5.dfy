/**
 RC5 in IRremote: the sender's half-bits, and a decoder that takes measured run widths
 apart into half-bits again under 25% tolerance windows.
 */
module IrRc5 {
  import opened Basics
  import opened IrCapture

  const MARK_EXCESS: nat := 100
  const RC5_T1: nat := 889
  const MIN_RC5_SAMPLES: nat := 11

  // ---------- sending ----------

  /** The two half-bits of a bit: a one is a space and then a mark. */
  function Cell(bit: bool): seq<bool> { [!bit, bit] }

  function Cells(bits: seq<bool>): (levels: seq<bool>)
    ensures |levels| == 2 * |bits|
    decreases |bits|
  {
    if bits == [] then [] else Cell(bits[0]) + Cells(bits[1..])
  }

  /** A transmission in half-bits. */
  function Frame(bits: seq<bool>): seq<bool> { [true, false, true] + Cells(bits) }

  /** A call of mark or space. */
  datatype Pulse = Pulse(mark: bool, usec: nat)

  function Pulses(levels: seq<bool>): seq<Pulse> {
    seq(|levels|, i requires 0 <= i < |levels| => Pulse(levels[i], RC5_T1))
  }

  function Pow2(n: nat): (p: nat)
    ensures p > 0
  {
    if n == 0 then 1 else 2 * Pow2(n - 1)
  }

  /** The bits that leave at the top of a 32-bit word as it is shifted left. */
  function TopBits(word: nat, n: nat): (bits: seq<bool>)
    ensures |bits| == n
    decreases n
  {
    if n == 0 then [] else [word / 0x8000_0000 % 2 == 1] + TopBits(word * 2 % WORD, n - 1)
  }

  lemma PulsesAppend(a: seq<bool>, b: seq<bool>)
    ensures Pulses(a + b) == Pulses(a) + Pulses(b)
  {
  }

  lemma {:induction false} CellsAppend(bits: seq<bool>, b: bool)
    ensures Cells(bits + [b]) == Cells(bits) + Cell(b)
    decreases |bits|
  {
    if bits == [] {
      assert ([] + [b])[1..] == [];
    } else {
      CellsAppend(bits[1..], b);
      assert (bits + [b])[1..] == bits[1..] + [b];
      Assoc(Cell(bits[0]), Cells(bits[1..]), Cell(b));
    }
  }

  lemma {:induction false} TopBitsAppend(word: nat, n: nat, i: nat, shifted: nat)
    requires i < n && shifted == Shifted(word, i)
    ensures TopBits(word, i + 1) == TopBits(word, i) + [shifted / 0x8000_0000 % 2 == 1]
    decreases i
  {
    if i > 0 {
      TopBitsAppend(word * 2 % WORD, n - 1, i - 1, shifted);
    }
  }

  /** i shifts to the left. */
  function Shifted(word: nat, i: nat): nat
    decreases i
  {
    if i == 0 then word else Shifted(word * 2 % WORD, i - 1)
  }

  lemma {:induction false} ShiftOnce(word: nat, i: nat)
    ensures Shifted(word, i + 1) == Shifted(word, i) * 2 % WORD
    decreases i
  {
    if i > 0 { ShiftOnce(word * 2 % WORD, i - 1); }
  }

  /** sendRC5 */
  method SendRC5(data: nat, nbits: nat) returns (line: seq<Pulse>)
    requires data < WORD && 1 <= nbits <= 32
    ensures line == Pulses(Frame(TopBits(data * Pow2(32 - nbits) % WORD, nbits))) + [Pulse(false, 0)]
  {
    var power := 1;
    for i := 0 to 32 - nbits
      invariant power == Pow2(i)
    {
      power := 2 * power;
    }
    var word := data * power % WORD;
    ghost var start := word;
    line := [Pulse(true, RC5_T1), Pulse(false, RC5_T1), Pulse(true, RC5_T1)];
    assert [true, false, true] + Cells([]) == [true, false, true];
    for i := 0 to nbits
      invariant word == Shifted(start, i)
      invariant line == Pulses(Frame(TopBits(start, i)))
    {
      ghost var sent := TopBits(start, i);
      TopBitsAppend(start, nbits, i, word);
      ghost var bit := word / 0x8000_0000 % 2 == 1;
      CellsAppend(sent, bit);
      assert Frame(sent + [bit]) == Frame(sent) + Cell(bit);
      PulsesAppend(Frame(sent), Cell(bit));
      if word / 0x8000_0000 % 2 == 1 {
        line := line + [Pulse(false, RC5_T1)];
        line := line + [Pulse(true, RC5_T1)];
      } else {
        line := line + [Pulse(true, RC5_T1)];
        line := line + [Pulse(false, RC5_T1)];
      }
      ShiftOnce(start, i);
      word := word * 2 % WORD;
    }
    line := line + [Pulse(false, 0)];
  }

  /** The number that bits spell, the most significant first. */
  function Value(bits: seq<bool>): nat
    decreases |bits|
  {
    var n := |bits| - 1;
    if n < 0 then 0 else 2 * Value(bits[..n]) + if bits[n] then 1 else 0
  }

  lemma {:induction false} Pow2Add(a: nat, b: nat)
    ensures Pow2(a) * Pow2(b) == Pow2(a + b)
    decreases a
  {
    if a > 0 {
      Pow2Add(a - 1, b);
      assert Pow2(a) * Pow2(b) == 2 * (Pow2(a - 1) * Pow2(b));
    }
  }

  lemma Pow2Of32(n: nat)
    requires n == 32
    ensures Pow2(n) == WORD
  {
    assert Pow2(8) == 256;
    Pow2Add(8, 8);
    Pow2Add(16, 16);
  }

  lemma {:induction false} ValueCons(b: bool, bits: seq<bool>)
    ensures Value([b] + bits) == (if b then Pow2(|bits|) else 0) + Value(bits)
    decreases |bits|
  {
    var n := |bits| - 1;
    if n < 0 {
      assert [b] + bits == [b];
      assert [b][..0] == [];
    } else {
      assert ([b] + bits)[..n + 1] == [b] + bits[..n];
      ValueCons(b, bits[..n]);
    }
  }

  lemma Below(v: nat, half: nat, p: nat)
    requires v < half && p > 0
    ensures v * p < half * p
  {
    assert half * p == v * p + (half - v) * p;
    assert (half - v) * p > 0;
  }

  /** The top bit of v shifted up leaves; the rest moves up by one. */
  lemma ShiftOut(v: nat, half: nat, p: nat)
    requires half * p == 0x8000_0000 && v < 2 * half && p > 0
    ensures var v' := if v >= half then v - half else v;
      (v * p / 0x8000_0000 % 2 == 1 <==> v >= half) && v * p * 2 % WORD == v' * (2 * p)
  {
    var v' := if v >= half then v - half else v;
    Below(v', half, p);
    assert v * p == v' * p + if v >= half then half * p else 0;
    assert v' * p * 2 == v' * (2 * p);
    TopBit(v' * p, v >= half);
  }

  lemma TopBit(low: nat, top: bool)
    requires low < 0x8000_0000
    ensures var x := low + if top then 0x8000_0000 else 0;
      (x / 0x8000_0000 % 2 == 1 <==> top) && x * 2 % WORD == low * 2
  {
  }

  lemma Halved(half: nat, p: nat)
    requires 2 * half * p == WORD
    ensures half * p == 0x8000_0000 && half * (2 * p) == WORD
  {
    assert 2 * half * p == 2 * (half * p);
  }

  /** Shifting v up to the top of the word and out again spells v. */
  lemma {:induction false} TopBitsSpell(v: nat, n: nat, p: nat)
    requires v < Pow2(n) && Pow2(n) * p == WORD && p > 0
    ensures Value(TopBits(v * p, n)) == v
    decreases n
  {
    if n > 0 {
      var half := Pow2(n - 1);
      Halved(half, p);
      hide Value;
      var v' := if v >= half then v - half else v;
      ShiftOut(v, half, p);
      TopBitsSpell(v', n - 1, 2 * p);
      ValueCons(v >= half, TopBits(v' * (2 * p), n - 1));
    }
  }

  lemma ShiftUp(data: nat, p: nat, q: nat)
    requires p * q == WORD && p > 0 && q > 0
    ensures data * q % WORD == (data % p) * q
  {
    var k, r := data / p, data % p;
    assert data * q == (k * p + r) * q == k * (p * q) + r * q;
    Below(r, p, q);
    Remainder(k, r * q);
  }

  lemma Remainder(k: nat, r: nat)
    requires r < WORD
    ensures (k * WORD + r) % WORD == r
  {
  }

  /** The bits sendRC5 sends are the low nbits bits of the data, the most significant first. */
  lemma SentBits(data: nat, nbits: nat)
    requires 1 <= nbits <= 32
    ensures Value(TopBits(data * Pow2(32 - nbits) % WORD, nbits)) == data % Pow2(nbits)
  {
    var p, q := Pow2(nbits), Pow2(32 - nbits);
    Pow2Add(nbits, 32 - nbits);
    Pow2Of32(32);
    ShiftUp(data, p, q);
    TopBitsSpell(data % p, nbits, q);
  }

  // ---------- measured widths ----------

  /** TICKS_LOW and TICKS_HIGH: 25% either way in units of 50 microseconds. */
  function TicksLow(us: nat): nat { us * 3 / 200 }
  function TicksHigh(us: nat): nat { us / 40 + 1 }

  predicate Match(width: nat, us: nat) { TicksLow(us) <= width <= TicksHigh(us) }

  /** n half-bits as the sensor shows them: marks too long, spaces too short. */
  function Expected(n: nat, mark: bool): nat
    requires n > 0
  {
    if mark then n * RC5_T1 + MARK_EXCESS else n * RC5_T1 - MARK_EXCESS
  }

  /** How many half-bits a width stands for; 0 if none. */
  function Units(width: nat, mark: bool): (n: nat)
    ensures n <= 3
  {
    if Match(width, Expected(1, mark)) then 1
    else if Match(width, Expected(2, mark)) then 2
    else if Match(width, Expected(3, mark)) then 3
    else 0
  }

  predicate IsMark(offset: nat) { offset % 2 == 1 }

  /** The half-bits that the entries from offset on stand for. */
  function Levels(raw: seq<Word>, offset: nat): Option<seq<bool>>
    decreases |raw| - offset
  {
    if offset >= |raw| then Some([])
    else
      var n := Units(raw[offset], IsMark(offset));
      var rest := Levels(raw, offset + 1);
      if n == 0 || rest.None? then None else Some(Repeat(IsMark(offset), n) + rest.value)
  }

  // ---------- decoding ----------

  datatype Level = MARK | SPACE | BAD

  function LevelName(mark: bool): Level { if mark then MARK else SPACE }

  datatype Result = ERR | DECODED(bits: nat, value: nat)

  /** What is left to read after `used` half-bits of the entry at offset. */
  function Ahead(raw: seq<Word>, offset: nat, used: nat): Option<seq<bool>>
    requires used > 0 ==> offset < |raw| && used <= Units(raw[offset], IsMark(offset))
  {
    match Levels(raw, offset)
    case None => None
    case Some(levels) => if offset < |raw| then Some(levels[used..]) else Some([])
  }

  lemma {:induction false} RepeatAt(mark: bool, n: nat, k: nat)
    requires k < n
    ensures Repeat(mark, n)[k] == mark
    decreases n
  {
    if k < n - 1 { RepeatAt(mark, n - 1, k); }
  }

  lemma SplitAt<T>(s: seq<T>, k: nat)
    requires k < |s|
    ensures s[k..] == [s[k]] + s[k + 1..]
  {
  }

  lemma DropFirst<T>(a: seq<T>, b: seq<T>)
    ensures (a + b)[|a|..] == b
  {
  }

  /** One half-bit read. */
  lemma ReadOne(raw: seq<Word>, offset: nat, used: nat)
    requires offset < |raw| && used < Units(raw[offset], IsMark(offset))
    ensures var n := Units(raw[offset], IsMark(offset));
      var next := if used + 1 == n then Ahead(raw, offset + 1, 0) else Ahead(raw, offset, used + 1);
      match Ahead(raw, offset, used)
      case None => next == None
      case Some(levels) => next.Some? && levels == [IsMark(offset)] + next.value
  {
    var mark, n := IsMark(offset), Units(raw[offset], IsMark(offset));
    var rest := Levels(raw, offset + 1);
    if rest.Some? {
      RepeatAt(mark, n, used);
      SplitAt(Repeat(mark, n) + rest.value, used);
      DropFirst(Repeat(mark, n), rest.value);
      assert offset + 1 < |raw| ==> rest.value[0..] == rest.value;
    }
  }

  /** getRClevel */
  method GetRClevel(raw: seq<Word>, offset: nat, used: nat) returns (level: Level, offset': nat, used': nat)
    requires used > 0 ==> offset < |raw| && used < Units(raw[offset], IsMark(offset))
    ensures used' > 0 ==> offset' < |raw| && used' < Units(raw[offset'], IsMark(offset'))
    ensures offset >= |raw| ==> level == SPACE && offset' == offset && used' == 0
    ensures offset < |raw| ==>
      match Ahead(raw, offset, used)
      case None => level == BAD || Ahead(raw, offset', used') == None
      case Some(levels) =>
        levels != [] && level == LevelName(levels[0]) && Ahead(raw, offset', used') == Some(levels[1..])
    ensures offset < |raw| && level != BAD ==> offset' == offset + 1 || (offset' == offset && used' > used)
    ensures offset <= offset' <= offset + 1
  {
    offset', used' := offset, used;
    if offset >= |raw| { return SPACE, offset', used'; }
    var width := raw[offset];
    var mark := offset % 2 == 1;
    var correction: int := if mark then MARK_EXCESS else -(MARK_EXCESS as int);
    var avail;
    if Match(width, RC5_T1 + correction) {
      avail := 1;
    } else if Match(width, 2 * RC5_T1 + correction) {
      avail := 2;
    } else if Match(width, 3 * RC5_T1 + correction) {
      avail := 3;
    } else {
      return BAD, offset', used';
    }
    ReadOne(raw, offset, used);
    used' := used + 1;
    if used' >= avail {
      used' := 0;
      offset' := offset + 1;
    }
    level := if mark then MARK else SPACE;
  }

  /** Pairs of half-bits as bits; past the end of the recording there is only space. */
  function Parse(levels: seq<bool>): Option<seq<bool>>
    decreases |levels|
  {
    if levels == [] then Some([])
    else
      var second := |levels| > 1 && levels[1];
      if levels[0] == second then None
      else
        match Parse(levels[if |levels| > 1 then 2 else 1..])
        case None => None
        case Some(bits) => Some([second] + bits)
  }

  /** What decodeRC5 makes of a recording. */
  function Decode(raw: seq<Word>): Option<seq<bool>> {
    if |raw| < MIN_RC5_SAMPLES + 2 then None
    else
      match Levels(raw, 1)
      case None => None
      case Some(levels) =>
        if |levels| >= 3 && levels[..3] == [true, false, true] then Parse(levels[3..]) else None
  }

  /** The bits read so far and what is left to read. */
  function Finish(got: seq<bool>, ahead: Option<seq<bool>>): Option<seq<bool>> {
    if ahead.None? then None
    else
      match Parse(ahead.value)
      case None => None
      case Some(bits) => Some(got + bits)
  }

  lemma FinishStep(got: seq<bool>, levels: seq<bool>)
    requires levels != []
    ensures var second := |levels| > 1 && levels[1];
      var rest := if |levels| > 1 then levels[1..][1..] else [];
      Finish(got, Some(levels)) == if levels[0] == second then None else Finish(got + [second], Some(rest))
  {
    var second := |levels| > 1 && levels[1];
    var rest := levels[if |levels| > 1 then 2 else 1..];
    assert |levels| > 1 ==> levels[1..][1..] == rest;
    if levels[0] != second && Parse(rest).Some? {
      assert got + ([second] + Parse(rest).value) == got + [second] + Parse(rest).value;
    }
  }

  lemma ValueAppend(bits: seq<bool>, b: bool)
    ensures Value(bits + [b]) % WORD == (2 * (Value(bits) % WORD) + if b then 1 else 0) % WORD
  {
    assert (bits + [b])[..|bits|] == bits;
    ModTwice(Value(bits), if b then 1 else 0);
  }

  lemma ModTwice(v: nat, b: nat)
    ensures (2 * v + b) % WORD == (2 * (v % WORD) + b) % WORD
  {
    var k, r := v / WORD, v % WORD;
    assert 2 * v + b == 2 * k * WORD + (2 * r + b);
    ModDrop(2 * k, 2 * r + b);
  }

  lemma ModDrop(k: nat, r: nat)
    ensures (k * WORD + r) % WORD == r % WORD
  {
  }

  lemma FirstThree(levels: seq<bool>)
    requires levels != [] && levels[1..] != [] && levels[1..][1..] != []
    ensures levels[..3] == [true, false, true] <==> levels[0] && !levels[1..][0] && levels[1..][1..][0]
    ensures levels[1..][1..][1..] == levels[3..]
  {
  }

  /** What Decode says of a recording that is long enough, when its first half-bits are read one by one. */
  lemma StartBits(raw: seq<Word>, levels: seq<bool>)
    requires |raw| >= MIN_RC5_SAMPLES + 2 && Levels(raw, 1) == Some(levels)
    requires levels != [] && levels[1..] != [] && levels[1..][1..] != []
    ensures Decode(raw) == if levels[0] && !levels[1..][0] && levels[1..][1..][0]
                           then Finish([], Some(levels[1..][1..][1..])) else None
  {
    FirstThree(levels);
    var rest := levels[3..];
    if Parse(rest).Some? { assert [] + Parse(rest).value == Parse(rest).value; }
  }

  /** Every entry stands for at least one half-bit. */
  lemma {:induction false} LevelsLong(raw: seq<Word>, offset: nat)
    requires offset <= |raw|
    ensures Levels(raw, offset).Some? ==> |Levels(raw, offset).value| >= |raw| - offset
    decreases |raw| - offset
  {
    if offset < |raw| { LevelsLong(raw, offset + 1); }
  }

  /** The start bits of decodeRC5: mark, space, mark. */
  method ReadStart(raw: seq<Word>) returns (ok: bool, offset: nat, used: nat)
    requires |raw| >= MIN_RC5_SAMPLES + 2
    ensures !ok ==> Decode(raw) == None
    ensures ok ==> used > 0 ==> offset < |raw| && used < Units(raw[offset], IsMark(offset))
    ensures ok ==> Decode(raw) == Finish([], Ahead(raw, offset, used))
  {
    ghost var all := Levels(raw, 1);
    assert all.Some? ==> all.value[0..] == all.value;
    LevelsLong(raw, 1);
    if all.Some? { StartBits(raw, all.value); }
    var level;
    level, offset, used := GetRClevel(raw, 1, 0);
    if level != MARK { return false, offset, used; }
    level, offset, used := GetRClevel(raw, offset, used);
    if level != SPACE { return false, offset, used; }
    level, offset, used := GetRClevel(raw, offset, used);
    if level != MARK { return false, offset, used; }
    ok := true;
  }

  lemma NothingAhead(raw: seq<Word>, offset: nat, used: nat, got: seq<bool>)
    requires offset >= |raw| && (used > 0 ==> offset < |raw|)
    ensures Finish(got, Ahead(raw, offset, used)) == Some(got)
  {
    assert got + [] == got;
  }

  /** Two half-bits: a bit, or an error. */
  method ReadPair(raw: seq<Word>, offset: nat, used: nat, ghost got: seq<bool>)
    returns (levelA: Level, levelB: Level, offset': nat, used': nat)
    requires offset < |raw| && (used > 0 ==> used < Units(raw[offset], IsMark(offset)))
    requires Decode(raw) == Finish(got, Ahead(raw, offset, used))
    ensures used' > 0 ==> offset' < |raw| && used' < Units(raw[offset'], IsMark(offset'))
    ensures !((levelA == SPACE && levelB == MARK) || (levelA == MARK && levelB == SPACE)) ==> Decode(raw) == None
    ensures (levelA == SPACE && levelB == MARK) || (levelA == MARK && levelB == SPACE) ==>
      && Decode(raw) == Finish(got + [levelB == MARK], Ahead(raw, offset', used'))
      && (offset' > offset || (offset' == offset && used' > used))
  {
    ghost var ahead := Ahead(raw, offset, used);
    if ahead.Some? { FinishStep(got, ahead.value); }
    levelA, offset', used' := GetRClevel(raw, offset, used);
    levelB, offset', used' := GetRClevel(raw, offset', used');
  }

  /** decodeRC5 */
  method DecodeRC5(raw: seq<Word>) returns (r: Result)
    ensures r == match Decode(raw)
                 case None => ERR
                 case Some(bits) => DECODED(|bits|, Value(bits) % WORD)
  {
    if |raw| < MIN_RC5_SAMPLES + 2 { return ERR; }
    hide Decode, Value, Ahead, Finish, Units;
    var ok: bool, offset: nat, used: nat := ReadStart(raw);
    if !ok { return ERR; }
    var data, nbits := 0, 0;
    ghost var got := [];
    while offset < |raw|
      invariant used > 0 ==> offset < |raw| && used < Units(raw[offset], IsMark(offset))
      invariant Decode(raw) == Finish(got, Ahead(raw, offset, used))
      invariant nbits == |got| && data == Value(got) % WORD
      decreases |raw| - offset, 3 - used
    {
      var levelA, levelB;
      levelA, levelB, offset, used := ReadPair(raw, offset, used, got);
      ValueAppend(got, levelB == MARK);
      if levelA == SPACE && levelB == MARK {
        data := (data * 2 + 1) % WORD;
      } else if levelA == MARK && levelB == SPACE {
        data := data * 2 % WORD;
      } else {
        return ERR;
      }
      got := got + [levelB == MARK];
      nbits := nbits + 1;
    }
    NothingAhead(raw, offset, used, got);
    return DECODED(nbits, data);
  }

  // ---------- what is decoded ----------

  /** Parsing undoes the half-bits, whether or not a final space was recorded, and accepts nothing else. */
  lemma {:induction false} ParseInverts(levels: seq<bool>, bits: seq<bool>)
    ensures Parse(levels) == Some(bits) <==> levels == Cells(bits) || levels + [false] == Cells(bits)
    decreases |levels|
  {
    if levels == [] {
      if bits != [] { assert |Cells(bits)| >= 2; }
    } else if bits == [] {
    } else {
      var b, rest := bits[0], Cells(bits[1..]);
      assert bits == [b] + bits[1..];
      var second := |levels| > 1 && levels[1];
      if |levels| == 1 {
        assert levels + [false] == [levels[0], false];
        ParseNothing(bits[1..]);
        assert Cells(bits) == [!b, b] + rest;
        assert Cells(bits)[0] == !b && Cells(bits)[1] == b;
      } else {
        ParseInverts(levels[2..], bits[1..]);
        PairFirst(levels, b, rest);
        PairFirst(levels + [false], b, rest);
        assert (levels + [false])[2..] == levels[2..] + [false];
      }
    }
  }

  lemma ParseNothing(bits: seq<bool>)
    ensures Parse([]) == Some(bits) <==> bits == []
  {
  }

  lemma PairFirst(levels: seq<bool>, b: bool, rest: seq<bool>)
    requires |levels| >= 2
    ensures levels == [!b, b] + rest <==> levels[0] == !b && levels[1] == b && levels[2..] == rest
  {
    assert levels == [levels[0], levels[1]] + levels[2..];
    if levels == [!b, b] + rest { assert levels[2..] == rest; }
  }

  /**
     decodeRC5 exactly: a recording decodes to some bits if and only if it has at least 13
     entries and its widths stand for the half-bits of those bits' transmission, the last
     of which is not recorded when it is a space.
   */
  lemma DecodesExactly(raw: seq<Word>, bits: seq<bool>)
    ensures Decode(raw) == Some(bits) <==>
      && |raw| >= MIN_RC5_SAMPLES + 2
      && (Levels(raw, 1) == Some(Frame(bits)) ||
          (Levels(raw, 1).Some? && Levels(raw, 1).value + [false] == Frame(bits)))
  {
    match Levels(raw, 1)
    case None =>
    case Some(levels) =>
      if |levels| >= 3 {
        ParseInverts(levels[3..], bits);
        StartFirst(levels, Cells(bits));
        StartFirst(levels + [false], Cells(bits));
        assert (levels + [false])[3..] == levels[3..] + [false];
        assert (levels + [false])[..3] == levels[..3];
      } else {
        assert |levels| == 2 && levels + [false] == Frame(bits) ==> (levels + [false])[2] == Frame(bits)[2];
      }
  }

  lemma StartFirst(levels: seq<bool>, rest: seq<bool>)
    requires |levels| >= 3
    ensures levels == [true, false, true] + rest <==> levels[..3] == [true, false, true] && levels[3..] == rest
  {
    assert levels == levels[..3] + levels[3..];
    if levels == [true, false, true] + rest {
      assert levels[..3] == [true, false, true];
      assert levels[3..] == rest;
    }
  }
}
