/** AudioSpecificConfig (ISO/IEC 14496-3, section 1.6.2): the bit reader, and parse_asc, which supplies the ADTS fields. */
module AudioConfig {
  import opened Bytes
  import opened Adts

  /** Bit `j` of a byte, 0 being the most significant. */
  function BitOf(b: nat, j: nat): nat {
    if j == 0 then b / 128 % 2 else if j == 1 then b / 64 % 2
    else if j == 2 then b / 32 % 2 else if j == 3 then b / 16 % 2
    else if j == 4 then b / 8 % 2 else if j == 5 then b / 4 % 2
    else if j == 6 then b / 2 % 2 else b % 2
  }

  function BitAt(p: seq<byte>, i: nat): nat {
    if i / 8 < |p| then BitOf(p[i / 8], i % 8) else 0
  }

  /** The number spelled by `k` bits from bit position `at`, most significant first. */
  function Bits(p: seq<byte>, at: nat, k: nat): nat {
    if k == 0 then 0 else 2 * Bits(p, at, k - 1) + BitAt(p, at + k - 1)
  }

  function Weight(k: nat): nat {
    if k == 0 then 1 else 2 * Weight(k - 1)
  }

  lemma {:induction false} BitsBelow(p: seq<byte>, at: nat, k: nat)
    ensures Bits(p, at, k) < Weight(k)
  {
    hide BitOf;
    if k > 0 {
      BitsBelow(p, at, k - 1);
      BitIsSmall(p, at + k - 1);
    }
  }

  lemma BitIsSmall(p: seq<byte>, i: nat)
    ensures BitAt(p, i) < 2
  {
  }

  lemma {:induction false} WeightGrows(k: nat, n: nat)
    requires k <= n
    ensures Weight(k) <= Weight(n)
  {
    if k < n {
      WeightGrows(k, n - 1);
    }
  }

  lemma WordWeight()
    ensures Weight(32) == 0x1_0000_0000
  {
    assert Weight(8) == 256;
    assert Weight(16) == 65536;
    assert Weight(24) == 0x100_0000;
  }

  lemma Doubles(b: nat, bit: nat)
    ensures (2 * (b % 0x1_0000_0000) + bit) % 0x1_0000_0000 == (2 * b + bit) % 0x1_0000_0000
  {
    assert b == b / 0x1_0000_0000 * 0x1_0000_0000 + b % 0x1_0000_0000;
    Shifts(b / 0x1_0000_0000, 2 * (b % 0x1_0000_0000) + bit);
  }

  lemma Shifts(a: nat, r: nat)
    ensures (2 * a * 0x1_0000_0000 + r) % 0x1_0000_0000 == r % 0x1_0000_0000
  {
  }

  lemma BitsInWord(p: seq<byte>, at: nat, k: nat)
    ensures k <= 32 ==> Bits(p, at, k) % 0x1_0000_0000 == Bits(p, at, k)
  {
    hide Bits, Weight;
    if k <= 32 {
      WordWeight();
      WeightGrows(k, 32);
      BitsBelow(p, at, k);
    }
  }

  lemma NoBits(p: seq<byte>, at: nat)
    ensures Bits(p, at, 0) == 0
  {
  }

  lemma NextBit(p: seq<byte>, at: nat, k: nat)
    ensures Bits(p, at, k + 1) == 2 * Bits(p, at, k) + BitAt(p, at + k)
  {
  }

  /** getbits: the value wraps in its 32-bit variable, which matters only for more than 32 bits. */
  method GetBits(p: seq<byte>, at: nat, k: nat) returns (v: nat, next: nat)
    ensures v == Bits(p, at, k) % 0x1_0000_0000 && next == at + k
    ensures k <= 32 ==> v == Bits(p, at, k)
  {
    BitsInWord(p, at, k);
    NoBits(p, at);
    hide BitAt, Bits;
    v, next := 0, at;
    var left := k;
    while left > 0
      invariant 0 <= left <= k && next == at + k - left
      invariant v == Bits(p, at, k - left) % 0x1_0000_0000
    {
      NextBit(p, at, k - left);
      Doubles(Bits(p, at, k - left), BitAt(p, next));
      left := left - 1;
      v := (2 * v + BitAt(p, next)) % 0x1_0000_0000;
      next := next + 1;
    }
  }

  /** A 5-bit object type, or an escape followed by 6 bits; the second result is its width. */
  function ObjectType(p: seq<byte>, at: nat): (nat, nat) {
    var t := Bits(p, at, 5);
    if t == 31 then (32 + Bits(p, at + 5, 6), 11) else (t, 5)
  }

  /** The format a configuration announces: an explicit SBR or PS wrapper yields its core object. */
  function AscFormat(p: seq<byte>, fallbackChan: nat): Option<AudioFormat> {
    var (outer, w) := ObjectType(p, 0);
    var freq := Bits(p, w, 4);
    var field := Bits(p, w + 4, 4);
    var ext := w + 8;
    var core := if outer != 5 && outer != 29 then outer
                else ObjectType(p, ext + (if Bits(p, ext, 4) == 15 then 28 else 4)).0;
    var chan := if field == 0 then fallbackChan else field;
    if 1 <= core <= 4 && freq <= 12 && 1 <= chan <= 7 then Some(Format(core - 1, freq, chan)) else None
  }

  method ParseAsc(p: seq<byte>, fallbackChan: nat) returns (r: Option<AudioFormat>)
    ensures r == AscFormat(p, fallbackChan)
  {
    hide Bits;
    var aot, bp := GetBits(p, 0, 5);
    if aot == 31 {
      var low;
      low, bp := GetBits(p, bp, 6);
      aot := 32 + low;
    }
    var fi, ch;
    fi, bp := GetBits(p, bp, 4);
    if fi == 15 {
      return None;
    }
    ch, bp := GetBits(p, bp, 4);
    if aot == 5 || aot == 29 {
      var ext;
      ext, bp := GetBits(p, bp, 4);
      if ext == 15 {
        ext, bp := GetBits(p, bp, 24);
      }
      aot, bp := GetBits(p, bp, 5);
      if aot == 31 {
        var low;
        low, bp := GetBits(p, bp, 6);
        aot := 32 + low;
      }
    }
    if ch == 0 {
      ch := fallbackChan;
    }
    if aot < 1 || aot > 4 || fi > 12 || ch < 1 || ch > 7 {
      return None;
    }
    return Some(Format(aot - 1, fi, ch));
  }

  /** A plain two-byte configuration, and the same core wrapped in explicit SBR (object type 5). */
  function PlainAsc(f: AudioFormat): seq<byte> {
    [(f.profile + 1) * 8 + f.freq / 2, f.freq % 2 * 128 + f.chan * 8]
  }

  function SbrAsc(f: AudioFormat, extFreq: nat): seq<byte>
    requires extFreq < 15
  {
    [ 5 * 8 + f.freq / 2,
      f.freq % 2 * 128 + f.chan * 8 + extFreq / 2,
      extFreq % 2 * 128 + (f.profile + 1) * 4 ]
  }

  /** The upper five, the lower three, the first and the middle four bits of a byte. */
  lemma ByteFields(b: nat)
    requires b < 0x100
    ensures b / 8 == 16 * BitOf(b, 0) + 8 * BitOf(b, 1) + 4 * BitOf(b, 2) + 2 * BitOf(b, 3) + BitOf(b, 4)
    ensures b % 8 == 4 * BitOf(b, 5) + 2 * BitOf(b, 6) + BitOf(b, 7)
    ensures b / 128 == BitOf(b, 0)
    ensures b / 8 % 16 == 8 * BitOf(b, 1) + 4 * BitOf(b, 2) + 2 * BitOf(b, 3) + BitOf(b, 4)
  {
    UpperBits(b);
    LowerBits(b);
    SmallBits(b);
    hide BitOf;
    LastFour(BitOf(b, 0), 8 * BitOf(b, 1) + 4 * BitOf(b, 2) + 2 * BitOf(b, 3) + BitOf(b, 4));
  }

  lemma SmallBits(b: nat)
    ensures forall j :: 0 <= j < 8 ==> BitOf(b, j) < 2
  {
  }

  lemma LastFour(a: nat, r: nat)
    requires r < 16
    ensures (16 * a + r) % 16 == r
  {
  }

  lemma UpperBits(b: nat)
    requires b < 0x100
    ensures b / 128 == BitOf(b, 0)
    ensures b / 64 == 2 * BitOf(b, 0) + BitOf(b, 1)
    ensures b / 16 == 8 * BitOf(b, 0) + 4 * BitOf(b, 1) + 2 * BitOf(b, 2) + BitOf(b, 3)
  {
    assert b / 64 == 2 * (b / 128) + b / 64 % 2;
    assert b / 32 == 2 * (b / 64) + b / 32 % 2;
    assert b / 16 == 2 * (b / 32) + b / 16 % 2;
  }

  lemma LowerBits(b: nat)
    requires b < 0x100
    ensures b / 8 == 2 * (b / 16) + BitOf(b, 4)
    ensures b % 8 == 4 * BitOf(b, 5) + 2 * BitOf(b, 6) + BitOf(b, 7)
  {
    assert b / 2 == 2 * (b / 4) + b / 2 % 2;
    assert b / 4 == 2 * (b / 8) + b / 4 % 2;
  }

  /** The three fields of a two-byte configuration. */
  lemma LeadingFields(p: seq<byte>)
    requires |p| >= 2
    ensures Bits(p, 0, 5) == p[0] as int / 8
    ensures Bits(p, 5, 4) == p[0] as int % 8 * 2 + p[1] as int / 128
    ensures Bits(p, 9, 4) == p[1] as int / 8 % 16
  {
    var b0, b1 := p[0] as int, p[1] as int;
    assert forall j :: 0 <= j < 8 ==> BitAt(p, j) == BitOf(b0, j);
    assert forall j :: 8 <= j < 16 ==> BitAt(p, j) == BitOf(b1, j - 8);
    ByteFields(b0);
    ByteFields(b1);
    FourBits(p, 0);
    FourBits(p, 5);
    FourBits(p, 9);
    FiveBits(p, 0);
  }

  lemma FiveBits(p: seq<byte>, at: nat)
    ensures Bits(p, at, 5) == 2 * Bits(p, at, 4) + BitAt(p, at + 4)
  {
  }

  lemma FourBits(p: seq<byte>, at: nat)
    ensures Bits(p, at, 4) == 8 * BitAt(p, at) + 4 * BitAt(p, at + 1) + 2 * BitAt(p, at + 2) + BitAt(p, at + 3)
  {
    assert Bits(p, at, 1) == BitAt(p, at);
    assert Bits(p, at, 2) == 2 * Bits(p, at, 1) + BitAt(p, at + 1);
    assert Bits(p, at, 3) == 2 * Bits(p, at, 2) + BitAt(p, at + 2);
  }

  lemma PackedFields(kind: nat, freq: nat, chan: nat)
    requires chan < 16
    ensures
      var b0, b1 := kind * 8 + freq / 2, freq % 2 * 128 + chan * 8;
      freq < 16 ==> b0 / 8 == kind && b0 % 8 * 2 + b1 / 128 == freq && b1 / 8 % 16 == chan
  {
  }

  /** A configuration whose three leading fields are those of a core format. */
  lemma PlainFormat(p: seq<byte>, f: AudioFormat, fallbackChan: nat)
    requires Bits(p, 0, 5) == f.profile + 1 && Bits(p, 5, 4) == f.freq && Bits(p, 9, 4) == f.chan
    ensures AscFormat(p, fallbackChan) == Some(f)
  {
    hide Bits;
  }

  /** Every accepted format is what the reader finds in its own configuration, whatever follows it. */
  lemma PlainAscRoundTrip(f: AudioFormat, tail: seq<byte>, fallbackChan: nat)
    ensures AscFormat(PlainAsc(f) + tail, fallbackChan) == Some(f)
  {
    var p := PlainAsc(f) + tail;
    hide Bits, AscFormat;
    LeadingFields(p);
    assert p[0] as int == (f.profile + 1) * 8 + f.freq / 2 && p[1] as int == f.freq % 2 * 128 + f.chan * 8;
    hide PlainAsc;
    PackedFields(f.profile + 1, f.freq, f.chan);
    PlainFormat(p, f, fallbackChan);
  }

  /** The bits of a suffix. */
  lemma {:induction false} Shifted(p: seq<byte>, at: nat, k: nat, n: nat)
    requires 8 * n <= at && n <= |p|
    ensures Bits(p, at, k) == Bits(p[n..], at - 8 * n, k)
    decreases k
  {
    hide BitAt;
    if k > 0 {
      Shifted(p, at, k - 1, n);
      ShiftedBit(p, at + k - 1, n);
    }
  }

  lemma ShiftedBit(p: seq<byte>, i: nat, n: nat)
    requires 8 * n <= i && n <= |p|
    ensures BitAt(p, i) == BitAt(p[n..], i - 8 * n)
  {
    hide BitOf;
    assert (i - 8 * n) / 8 == i / 8 - n && (i - 8 * n) % 8 == i % 8;
  }

  lemma MiddleByte(high: nat, chan: nat, low: nat)
    requires high < 2 && chan < 16 && low < 8
    ensures var b := high * 128 + chan * 8 + low; b / 128 == high && b / 8 % 16 == chan && b % 8 == low
  {
    assert (high * 128 + chan * 8 + low) / 8 == high * 16 + chan;
  }

  lemma LastByte(high: nat, kind: nat)
    requires high < 2 && kind < 32
    ensures var b := high * 128 + kind * 4; b / 128 == high && b / 4 % 32 == kind
  {
    assert (high * 128 + kind * 4) / 4 == high * 32 + kind;
  }

  /** A configuration with an explicit SBR wrapper around a core format. */
  lemma WrappedFormat(p: seq<byte>, f: AudioFormat, fallbackChan: nat)
    requires Bits(p, 0, 5) == 5 && Bits(p, 5, 4) == f.freq && Bits(p, 9, 4) == f.chan
    requires Bits(p, 13, 4) < 15 && Bits(p, 17, 5) == f.profile + 1
    ensures AscFormat(p, fallbackChan) == Some(f)
  {
    hide Bits;
  }

  /** The same format wrapped in explicit SBR is read back, whatever the extension rate and whatever follows. */
  lemma SbrAscRoundTrip(f: AudioFormat, extFreq: nat, tail: seq<byte>, fallbackChan: nat)
    requires extFreq < 15
    ensures AscFormat(SbrAsc(f, extFreq) + tail, fallbackChan) == Some(f)
  {
    var p := SbrAsc(f, extFreq) + tail;
    hide Bits, AscFormat;
    LeadingFields(p);
    ExtensionFields(p);
    assert p[0] as int == 40 + f.freq / 2 && p[1] as int == f.freq % 2 * 128 + f.chan * 8 + extFreq / 2
           && p[2] as int == extFreq % 2 * 128 + (f.profile + 1) * 4;
    hide SbrAsc;
    SbrFields(p[0] as int, p[1] as int, p[2] as int, f.freq, f.chan, extFreq, f.profile + 1);
    WrappedFormat(p, f, fallbackChan);
  }

  lemma SbrFields(b0: nat, b1: nat, b2: nat, freq: nat, chan: nat, ext: nat, kind: nat)
    requires freq < 16 && chan < 16 && ext < 15 && kind < 32
    requires b0 == 40 + freq / 2 && b1 == freq % 2 * 128 + chan * 8 + ext / 2 && b2 == ext % 2 * 128 + kind * 4
    ensures b0 / 8 == 5 && b0 % 8 * 2 + b1 / 128 == freq && b1 / 8 % 16 == chan
    ensures b1 % 8 * 2 + b2 / 128 == ext && b2 / 4 % 32 == kind
  {
    FirstByte(freq);
    MiddleByte(freq % 2, chan, ext / 2);
    LastByte(ext % 2, kind);
  }

  lemma FirstByte(freq: nat)
    requires freq < 16
    ensures (40 + freq / 2) / 8 == 5 && (40 + freq / 2) % 8 == freq / 2
  {
  }

  /** The four bits of the extension rate and the five of the core type behind it. */
  lemma ExtensionFields(p: seq<byte>)
    requires |p| >= 3
    ensures Bits(p, 13, 4) == p[1] as int % 8 * 2 + p[2] as int / 128
    ensures Bits(p, 17, 5) == p[2] as int / 4 % 32
  {
    hide Bits, BitAt, BitOf;
    Shifted(p, 13, 4, 1);
    Shifted(p, 17, 5, 1);
    LeadingFields(p[1..]);
    MiddleField(p[1..]);
  }

  /** Five bits from the second bit of the second byte on. */
  lemma MiddleField(p: seq<byte>)
    requires |p| >= 2
    ensures Bits(p, 9, 5) == p[1] as int / 4 % 32
  {
    LeadingFields(p);
    FiveBits(p, 9);
    hide Bits;
    UpperBits(p[1] as int);
    SixBits(p[1] as int);
  }

  lemma SixBits(b: nat)
    requires b < 0x100
    ensures b / 4 % 32 == 2 * (b / 8 % 16) + BitOf(b, 5)
  {
    assert b / 4 == 2 * (b / 8) + b / 4 % 2;
  }
}
