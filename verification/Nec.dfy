/**
 * The two NEC infrared decoders: the one that runs awake on RMT items (main/irnec.c), the one of the wake stub
 * that times the pin itself (main/app_main.c), and the code word that joins them (main/addon.c).
 */
module Nec {
  import opened Bytes

  const HEADER_HIGH_US := 9300
  const HEADER_LOW_US := 4600
  const REPEAT_LOW_US := 2300
  const BIT_HIGH_US := 600
  const BIT_ONE_LOW_US := 1650
  const BIT_ZERO_LOW_US := 520
  const MARGIN := 400
  const RTN_REPEAT := 0xFF

  /** rmt_item32_t: two levels with their durations in ticks of 1.25 us, fifteen bits each. */
  datatype Item = Item(level0: bool, duration0: nat, level1: bool, duration1: nat)

  /** What the stub measures: an active pulse and the gap after it, in microseconds; 0 is a timeout. */
  datatype Pulse = Pulse(mark: nat, space: nat)

  /** NEC_ITEM_DURATION. */
  function Duration(ticks: nat): nat {
    ticks % 0x8000 * 10 / 8
  }

  predicate CheckInRange(ticks: nat, targetUs: nat) {
    targetUs - MARGIN < Duration(ticks) < targetUs + MARGIN
  }

  /** An active (low) mark followed by a gap, both in range. */
  predicate Matches(item: Item, highUs: nat, lowUs: nat) {
    !item.level0 && item.level1 && CheckInRange(item.duration0, highUs) && CheckInRange(item.duration1, lowUs)
  }

  predicate HeaderIf(item: Item) {
    Matches(item, HEADER_HIGH_US, HEADER_LOW_US)
  }

  predicate RepeatIf(item: Item) {
    Matches(item, HEADER_HIGH_US, REPEAT_LOW_US)
  }

  predicate BitOneIf(item: Item) {
    Matches(item, BIT_HIGH_US, BIT_ONE_LOW_US)
  }

  predicate BitZeroIf(item: Item) {
    Matches(item, BIT_HIGH_US, BIT_ZERO_LOW_US)
  }

  function AwakeBit(item: Item): Option<bool> {
    if BitOneIf(item) then Some(true) else if BitZeroIf(item) then Some(false) else None
  }

  predicate MarkBad(p: Pulse) {
    p.mark < 300 || p.mark > 800
  }

  function StubBit(p: Pulse): Option<bool> {
    if MarkBad(p) then None
    else if 300 <= p.space < 800 then Some(false)
    else if 1300 <= p.space < 2100 then Some(true)
    else None
  }

  /** The bits up to the first item that is neither a one nor a zero. */
  function Bits<T>(classify: T -> Option<bool>, items: seq<T>): (bits: seq<bool>)
    ensures |bits| <= |items|
  {
    if items == [] || classify(items[0]).None? then [] else [classify(items[0]).value] + Bits(classify, items[1..])
  }

  /** The number whose bits come least significant first. */
  function Value(bits: seq<bool>): nat {
    if bits == [] then 0 else (if bits[0] then 1 else 0) + 2 * Value(bits[1..])
  }

  function Pow2(n: nat): (p: nat)
    ensures p > 0
  {
    if n == 0 then 1 else 2 * Pow2(n - 1)
  }

  datatype Awake = Repeat | Frame(addr: nat, data: nat) | Failed(code: int)

  /** nec_parse_items by its outcome. */
  function AwakeDecode(items: seq<Item>, itemNum: int): Awake
    requires |items| >= 33
  {
    var bits := Bits(AwakeBit, items[1..33]);
    if itemNum == 2 && RepeatIf(items[0]) then Repeat
    else if !HeaderIf(items[0]) then Failed(-2)
    else if |bits| < 16 then Failed(-3)
    else if |bits| < 32 then Failed(-4)
    else Frame(Value(bits[..16]), Value(bits[16..]))
  }

  datatype Stub = Word(word: nat) | Rejected(stage: nat)

  /** The frame decoder of the wake stub by its outcome. */
  function StubDecode(pulses: seq<Pulse>): Stub
    requires |pulses| >= 33
  {
    var bits := Bits(StubBit, pulses[1..33]);
    if pulses[0].mark == 0 then Rejected(11)
    else if pulses[0].space < 3500 || pulses[0].space > 5500 then Rejected(5)
    else if |bits| < 32 then Rejected(if MarkBad(pulses[1 + |bits|]) then 6 else 7)
    else Word(Value(bits))
  }

  lemma {:induction false} BitsPrefix<T>(classify: T -> Option<bool>, items: seq<T>, n: nat)
    requires n <= |items| && forall k :: 0 <= k < n ==> classify(items[k]).Some?
    ensures |Bits(classify, items)| >= n
    ensures forall k :: 0 <= k < n ==> Bits(classify, items)[k] == classify(items[k]).value
    ensures n < |items| && classify(items[n]).None? ==> |Bits(classify, items)| == n
  {
    if n > 0 {
      BitsPrefix(classify, items[1..], n - 1);
    }
  }

  lemma {:induction false} BitsClassify<T>(classify: T -> Option<bool>, items: seq<T>, k: nat)
    requires k < |Bits(classify, items)|
    ensures classify(items[k]) == Some(Bits(classify, items)[k])
  {
    if k > 0 {
      BitsClassify(classify, items[1..], k - 1);
    }
  }

  lemma {:induction false} ValueSnoc(bits: seq<bool>, b: bool)
    ensures Value(bits + [b]) == Value(bits) + if b then Pow2(|bits|) else 0
  {
    if bits != [] {
      ValueSnoc(bits[1..], b);
      assert (bits + [b])[1..] == bits[1..] + [b];
    }
  }

  lemma {:induction false} ValueBound(bits: seq<bool>)
    ensures Value(bits) < Pow2(|bits|)
  {
    if bits != [] {
      ValueBound(bits[1..]);
    }
  }

  lemma Doubled(p: nat, v: nat)
    ensures 2 * p * v == 2 * (p * v)
  {
  }

  lemma {:induction false} ValueConcat(x: seq<bool>, y: seq<bool>)
    ensures Value(x + y) == Value(x) + Pow2(|x|) * Value(y)
  {
    if x == [] {
      assert x + y == y;
    } else {
      ValueConcat(x[1..], y);
      assert (x + y)[1..] == x[1..] + y;
      var p, v := Pow2(|x| - 1), Value(y);
      assert Pow2(|x|) == 2 * p;
      Doubled(p, v);
      hide Value, Pow2;
    }
  }

  lemma Pow2Sixteen()
    ensures Pow2(16) == 0x1_0000 && Pow2(8) == 0x100 && Pow2(31) == 0x8000_0000
  {
    assert Pow2(8) == 0x100;
    assert Pow2(16) == 0x1_0000;
    assert Pow2(24) == 0x100_0000;
  }

  /** Sixteen bits ORed in one by one, the first at position 0. */
  method ParseWord(items: seq<Item>, start: nat) returns (ok: bool, word: nat)
    requires start + 16 <= |items|
    ensures ok <==> |Bits(AwakeBit, items[start..start + 16])| == 16
    ensures ok ==> word == Value(Bits(AwakeBit, items[start..start + 16]))
  {
    hide Bits, Value, AwakeBit;
    ghost var part := items[start..start + 16];
    ghost var bits := Bits(AwakeBit, part);
    var j, weight := 0, 1;
    word := 0;
    ValueNothing();
    while j < 16
      invariant 0 <= j <= |bits| && j <= 16 && weight == Pow2(j)
      invariant forall k :: 0 <= k < j ==> AwakeBit(part[k]).Some?
      invariant word == Value(bits[..j])
    {
      ClassifyNext(AwakeBit, part, j);
      var item := items[start + j];
      assert item == part[j];
      assert AwakeBit(item) == if BitOneIf(item) then Some(true) else if BitZeroIf(item) then Some(false) else None by {
        AwakeBitIs(item);
      }
      if BitOneIf(item) {
        word := word + weight; // bit j was clear, so this sets it
      } else if BitZeroIf(item) {
      } else {
        return false, word;
      }
      ValueSnoc(bits[..j], bits[j]);
      assert bits[..j + 1] == bits[..j] + [bits[j]];
      j, weight := j + 1, 2 * weight;
    }
    assert bits[..j] == bits;
    ok := true;
  }

  lemma ValueNothing()
    ensures Value([]) == 0
  {
  }

  lemma AwakeBitIs(item: Item)
    ensures AwakeBit(item) == if BitOneIf(item) then Some(true) else if BitZeroIf(item) then Some(false) else None
  {
  }

  /** The next item either continues the bits or ends them. */
  lemma ClassifyNext<T>(classify: T -> Option<bool>, items: seq<T>, j: nat)
    requires j < |items| && forall k :: 0 <= k < j ==> classify(items[k]).Some?
    ensures
      var bits := Bits(classify, items);
      if classify(items[j]).None? then |bits| == j else |bits| > j && bits[j] == classify(items[j]).value
  {
    BitsPrefix(classify, items, j);
    if classify(items[j]).Some? {
      BitsPrefix(classify, items, j + 1);
    }
  }

  lemma {:induction false} BitsConcat<T>(classify: T -> Option<bool>, x: seq<T>, y: seq<T>)
    ensures
      Bits(classify, x + y) ==
      if |Bits(classify, x)| == |x| then Bits(classify, x) + Bits(classify, y) else Bits(classify, x)
  {
    if x == [] {
      NoBits(classify);
      assert x + y == y && [] + Bits(classify, y) == Bits(classify, y);
    } else {
      hide Bits;
      BitsConcat(classify, x[1..], y);
      assert x + y == [x[0]] + (x[1..] + y) && x == [x[0]] + x[1..];
      BitsFirst(classify, x[0], x[1..] + y);
      BitsFirst(classify, x[0], x[1..]);
      Prepended(classify(x[0]), Bits(classify, x[1..]), Bits(classify, y));
    }
  }

  lemma Prepended(b: Option<bool>, p: seq<bool>, q: seq<bool>)
    ensures b.Some? ==> [b.value] + (p + q) == [b.value] + p + q
  {
  }

  lemma NoBits<T>(classify: T -> Option<bool>)
    ensures Bits(classify, []) == []
  {
  }

  lemma BitsFirst<T>(classify: T -> Option<bool>, item: T, rest: seq<T>)
    ensures
      Bits(classify, [item] + rest) ==
      match classify(item) case None => [] case Some(b) => [b] + Bits(classify, rest)
  {
    assert ([item] + rest)[1..] == rest;
  }

  /** nec_parse_items: 32 for a frame, 0xFF for a repeat, or an error code. */
  method NecParseItems(items: seq<Item>, itemNum: int) returns (res: int, addr: nat, data: nat)
    requires |items| >= 33
    ensures
      match AwakeDecode(items, itemNum)
      case Repeat => res == RTN_REPEAT
      case Failed(code) => res == code
      case Frame(a, d) => res == 32 && addr == a && data == d
  {
    hide Bits, Value, RepeatIf, HeaderIf;
    var ok;
    addr, data := 0, 0;
    if itemNum == 2 && RepeatIf(items[0]) {
      return RTN_REPEAT, addr, data;
    }
    if !HeaderIf(items[0]) {
      return -2, addr, data;
    }
    assert items[1..33] == items[1..17] + items[17..33];
    BitsConcat(AwakeBit, items[1..17], items[17..33]);
    ok, addr := ParseWord(items, 1);
    if !ok {
      return -3, addr, data;
    }
    ok, data := ParseWord(items, 17);
    if !ok {
      return -4, addr, data;
    }
    res := 32;
  }

  /** The stub shifts every bit in from the top: after 32 of them the first is at position 0. */
  method StubParse(pulses: seq<Pulse>) returns (stage: nat, decoded: nat)
    requires |pulses| >= 33
    ensures
      match StubDecode(pulses)
      case Rejected(s) => stage == s
      case Word(w) => stage == 5 && decoded == w
  {
    hide Bits, Value, Pow2;
    decoded := 0;
    if pulses[0].mark == 0 {
      return 11, decoded;
    }
    if pulses[0].space < 3500 || pulses[0].space > 5500 {
      return 5, decoded;
    }
    ghost var part := pulses[1..33];
    ghost var bits := Bits(StubBit, part);
    var i := 0;
    ValueNothing();
    while i < 32
      invariant 0 <= i <= |bits| && i <= 32
      invariant forall k :: 0 <= k < i ==> StubBit(part[k]).Some?
      invariant decoded == Value(bits[..i]) * Pow2(32 - i)
    {
      ClassifyNext(StubBit, part, i);
      var p := pulses[1 + i];
      assert p == part[i];
      if p.mark < 300 || p.mark > 800 {
        return 6, decoded;
      }
      if 300 <= p.space < 800 {
        decoded := decoded / 2;
      } else if 1300 <= p.space < 2100 {
        decoded := decoded / 2 + 0x8000_0000; // the top bit is clear after halving
      } else {
        return 7, decoded;
      }
      ShiftIn(bits[..i], bits[i]);
      assert bits[..i + 1] == bits[..i] + [bits[i]];
      i := i + 1;
    }
    assert bits[..i] == bits;
    PowZero();
    stage := 5;
  }

  lemma PowZero()
    ensures Pow2(0) == 1
  {
  }

  lemma {:induction false} PowSum(a: nat, b: nat)
    ensures Pow2(a) * Pow2(b) == Pow2(a + b)
  {
    if a > 0 {
      PowSum(a - 1, b);
      assert Pow2(a) * Pow2(b) == 2 * (Pow2(a - 1) * Pow2(b));
    }
  }

  /** One shift to the right with the new bit set at the top. */
  lemma ShiftIn(bits: seq<bool>, b: bool)
    requires |bits| < 32
    ensures
      Value(bits) * Pow2(32 - |bits|) / 2 + (if b then 0x8000_0000 else 0) ==
      Value(bits + [b]) * Pow2(31 - |bits|)
  {
    hide Value, Pow2;
    ValueSnoc(bits, b);
    TopBit(|bits|, b);
    Halved(Value(bits), Pow2(32 - |bits|), Pow2(31 - |bits|), if b then Pow2(|bits|) else 0,
           if b then 0x8000_0000 else 0, Value(bits + [b]));
  }

  lemma TopBit(n: nat, b: bool)
    requires n < 32
    ensures Pow2(32 - n) == 2 * Pow2(31 - n)
    ensures (if b then 0x8000_0000 else 0) == (if b then Pow2(n) else 0) * Pow2(31 - n)
  {
    PowSum(n, 31 - n);
    Pow2Sixteen();
  }

  lemma Halved(v: nat, p: nat, rest: nat, top: nat, add: nat, more: nat)
    requires p == 2 * rest && add == top * rest && more == v + top
    ensures v * p / 2 + add == more * rest
  {
    assert v * p == 2 * (v * rest);
    assert more * rest == v * rest + top * rest;
  }

  /** Widest difference, in microseconds, between the two measurements of a gap that keeps the decoders apart. */
  const TOLERANCE := 381

  /** The same pulses as both decoders measured them. */
  predicate SameGaps(items: seq<Item>, pulses: seq<Pulse>) {
    && |items| >= 33 && |pulses| >= 33
    && forall k :: 1 <= k < 33 ==>
        -TOLERANCE <= Duration(items[k].duration1) - pulses[k].space <= TOLERANCE
  }

  lemma SameBit(item: Item, p: Pulse)
    requires -TOLERANCE <= Duration(item.duration1) - p.space <= TOLERANCE
    requires AwakeBit(item).Some? && StubBit(p).Some?
    ensures AwakeBit(item) == StubBit(p)
  {
  }

  /** With a wider tolerance a gap can be a zero for one decoder and a one for the other. */
  lemma ToleranceIsTight()
    ensures
      var item, p := Item(false, 480, true, 735), Pulse(600, 1300);
      && AwakeBit(item) == Some(false) && StubBit(p) == Some(true)
      && p.space - Duration(item.duration1) == TOLERANCE + 1
  {
  }

  /** Whenever both decoders accept, the stub's word is the awake data above the awake address. */
  lemma DecodersAgree(items: seq<Item>, itemNum: int, pulses: seq<Pulse>)
    requires SameGaps(items, pulses)
    requires AwakeDecode(items, itemNum).Frame? && StubDecode(pulses).Word?
    ensures
      var f := AwakeDecode(items, itemNum);
      && StubDecode(pulses).word == f.data * 0x1_0000 + f.addr
      && f.addr < 0x1_0000 && f.data < 0x1_0000
  {
    var a, b := Bits(AwakeBit, items[1..33]), Bits(StubBit, pulses[1..33]);
    hide Bits, Value, AwakeBit, StubBit, Pow2;
    forall k | 0 <= k < 32
      ensures a[k] == b[k]
    {
      BitsClassify(AwakeBit, items[1..33], k);
      BitsClassify(StubBit, pulses[1..33], k);
      SameBit(items[1 + k], pulses[1 + k]);
    }
    assert a == b == a[..16] + a[16..];
    ValueConcat(a[..16], a[16..]);
    ValueBound(a[..16]);
    ValueBound(a[16..]);
    Pow2Sixteen();
  }

  predicate BothRead(item: Item, p: Pulse, b: bool) {
    AwakeBit(item) == Some(b) && StubBit(p) == Some(b)
  }

  /** A waveform that lies in both sets of windows and carries the 32 bits of a frame. */
  predicate Carries(bits: seq<bool>, items: seq<Item>, pulses: seq<Pulse>) {
    && |bits| == 32 && |items| >= 33 && |pulses| >= 33
    && HeaderIf(items[0]) && pulses[0].mark > 0 && 3500 <= pulses[0].space <= 5500
    && forall k :: 0 <= k < 32 ==> BothRead(items[1 + k], pulses[1 + k], bits[k])
  }

  /** Every frame is decoded by both, each to its own arrangement of the same bits. */
  lemma BothDecode(bits: seq<bool>, items: seq<Item>, itemNum: int, pulses: seq<Pulse>)
    requires Carries(bits, items, pulses)
    ensures AwakeDecode(items, itemNum) == Frame(Value(bits[..16]), Value(bits[16..]))
    ensures StubDecode(pulses) == Word(Value(bits))
  {
    forall k | 0 <= k < 32
      ensures AwakeBit(items[1..33][k]) == Some(bits[k]) && StubBit(pulses[1..33][k]) == Some(bits[k])
    {
      assert BothRead(items[1 + k], pulses[1 + k], bits[k]);
    }
    hide AwakeBit, StubBit, Value, Bits;
    BitsPrefix(AwakeBit, items[1..33], 32);
    BitsPrefix(StubBit, pulses[1..33], 32);
    HeaderNoRepeat(items[0]);
    assert Bits(AwakeBit, items[1..33]) == bits == Bits(StubBit, pulses[1..33]);
  }

  lemma HeaderNoRepeat(item: Item)
    requires HeaderIf(item)
    ensures !RepeatIf(item)
  {
  }

  /** The code word of irLoop. */
  function CodeWord(addr: nat, cmd: nat): nat {
    addr * 0x100 + cmd % 0x100
  }

  /** get_to_stub_format: the upper byte of the code is dropped, the complement of the command put on top. */
  function StubFormat(code: nat): nat {
    var addrHigh, addrLow, cmd := code / 0x1_0000 % 0x100, code / 0x100 % 0x100, code % 0x100;
    (255 - cmd) * 0x100_0000 + cmd * 0x1_0000 + addrHigh * 0x100 + addrLow
  }

  /** A frame whose last byte is the complement of its command byte. */
  predicate Complemented(data: nat) {
    data / 0x100 == 255 - data % 0x100
  }

  /**
   * The stub recognises a code exactly when the awake code word is that code (its low 24 bits) and the frame
   * is complemented.
   */
  lemma FormatMatches(addr: nat, data: nat, code: nat)
    requires addr < 0x1_0000 && data < 0x1_0000
    ensures
      data * 0x1_0000 + addr == StubFormat(code) <==>
      CodeWord(addr, data) == code % 0x100_0000 && Complemented(data)
  {
    var cmd, mid := code % 0x100, code / 0x100 % 0x1_0000;
    CodeFields(code);
    Halves(data, addr, (255 - cmd) * 0x100 + cmd, mid);
    Bytewise(data, cmd);
    CodeHalves(addr, data % 0x100, mid, cmd);
  }

  lemma Halves(x: nat, y: nat, p: nat, q: nat)
    requires y < 0x1_0000 && q < 0x1_0000
    ensures x * 0x1_0000 + y == p * 0x1_0000 + q <==> x == p && y == q
  {
  }

  lemma Bytewise(data: nat, cmd: nat)
    requires cmd < 0x100
    ensures data == (255 - cmd) * 0x100 + cmd <==> data % 0x100 == cmd && Complemented(data)
  {
    assert data == data / 0x100 * 0x100 + data % 0x100;
  }

  lemma CodeHalves(x: nat, y: nat, p: nat, q: nat)
    requires y < 0x100 && q < 0x100
    ensures x * 0x100 + y == p * 0x100 + q <==> x == p && y == q
  {
  }

  lemma CodeFields(code: nat)
    ensures code / 0x100 % 0x1_0000 == code / 0x1_0000 % 0x100 * 0x100 + code / 0x100 % 0x100
    ensures code % 0x100_0000 == code / 0x100 % 0x1_0000 * 0x100 + code % 0x100
  {
    TwoBytes(code / 0x100);
    ThreeBytes(code);
    SecondByte(code);
  }

  lemma SecondByte(code: nat)
    ensures code / 0x100 / 0x100 == code / 0x1_0000
  {
  }

  lemma TwoBytes(q: nat)
    ensures q % 0x1_0000 == q / 0x100 % 0x100 * 0x100 + q % 0x100
  {
    var r := q / 0x100;
    assert q == 0x100 * r + q % 0x100;
    assert r == 0x100 * (r / 0x100) + r % 0x100;
    LowHalf(r / 0x100, r % 0x100 * 0x100 + q % 0x100);
  }

  lemma LowHalf(a: nat, r: nat)
    requires r < 0x1_0000
    ensures (0x1_0000 * a + r) % 0x1_0000 == r
  {
  }

  lemma ThreeBytes(code: nat)
    ensures code % 0x100_0000 == code / 0x100 % 0x1_0000 * 0x100 + code % 0x100
  {
    var q := code / 0x100;
    assert code == 0x100 * q + code % 0x100;
    assert q == 0x1_0000 * (q / 0x1_0000) + q % 0x1_0000;
    LowThree(q / 0x1_0000, q % 0x1_0000 * 0x100 + code % 0x100);
  }

  lemma LowThree(a: nat, r: nat)
    requires r < 0x100_0000
    ensures (0x100_0000 * a + r) % 0x100_0000 == r
  {
  }

  /** What set_stub_ir_codes stores for a code, 0 for none. */
  function Armed(code: nat): nat {
    if code != 0 then StubFormat(code) else 0
  }

  /** The comparison that ends the stub's frame decoder. */
  predicate Wakes(word: nat, primary: nat, alt: nat) {
    word == Armed(primary) || (Armed(alt) != 0 && word == Armed(alt))
  }

  predicate Recognised(addr: nat, data: nat, code: nat) {
    code != 0 && CodeWord(addr, data) == code % 0x100_0000 && Complemented(data)
  }

  /**
   * The chip wakes exactly for the two configured codes, except that without a primary code a frame of
   * 32 zero bits wakes it too: only the second comparison is guarded against an unset code.
   */
  lemma WakesExactly(items: seq<Item>, itemNum: int, pulses: seq<Pulse>, primary: nat, alt: nat)
    requires SameGaps(items, pulses)
    requires AwakeDecode(items, itemNum).Frame? && StubDecode(pulses).Word?
    ensures
      var f := AwakeDecode(items, itemNum);
      Wakes(StubDecode(pulses).word, primary, alt) <==>
      || Recognised(f.addr, f.data, primary) || Recognised(f.addr, f.data, alt)
      || (primary == 0 && f.addr == 0 && f.data == 0)
  {
    var f := AwakeDecode(items, itemNum);
    DecodersAgree(items, itemNum, pulses);
    FormatMatches(f.addr, f.data, primary);
    FormatMatches(f.addr, f.data, alt);
    FormatNotZero(alt);
    hide StubFormat, AwakeDecode, StubDecode, SameGaps, CodeWord, Complemented;
  }

  lemma FormatNotZero(code: nat)
    ensures StubFormat(code) != 0
  {
  }
}
