/** The streaming SHA-1 of main/libsha1.c: a 16-word ring, unrolled rounds and a block buffer. */
module Sha1 {
  import opened Bytes
  import opened Sha1Spec

  /** The word a little-endian load reads from four octets. */
  function LittleEndian(p: octet, q: octet, r: octet, s: octet): word {
    (s as word << 24) | (r as word << 16) | (q as word << 8) | (p as word)
  }

  function Loaded(m: Block, k: nat): word
    requires k < 16
  {
    LittleEndian(m[4 * k], m[4 * k + 1], m[4 * k + 2], m[4 * k + 3])
  }

  lemma SwapLoaded(p: octet, q: octet, r: octet, s: octet)
    ensures
      var l := LittleEndian(p, q, r, s);
      (Rol(l, 24) & 0xFF00FF00) | (Rol(l, 8) & 0x00FF00FF) == BigEndian(p, q, r, s)
  {
  }

  lemma ChForm(w: word, x: word, y: word)
    ensures (w & (x ^ y)) ^ y == Ch(w, x, y)
  {
  }

  lemma MajForm(w: word, x: word, y: word)
    ensures ((w | x) & y) | (w & x) == Maj(w, x, y)
  {
  }

  /** What a macro adds to its last register. */
  function Raised(z: word, mix: word, w: word, k: word, r: word): word {
    z + (mix + w + k + r)
  }

  lemma SumOrder(z: word, mix: word, w: word, k: word, r: word)
    ensures Raised(z, mix, w, k, r) == Sum(r, mix, z, k, w)
  {
  }

  /** Before round `t` the ring holds the last sixteen schedule words, and still the loaded ones from `t` on. */
  predicate Ring(l: seq<word>, m: Block, t: nat) {
    && |l| == 16
    && (forall j :: 0 <= j < t && t <= j + 16 ==> l[j % 16] == W(m, j))
    && (forall k :: t <= k < 16 ==> l[k] == Loaded(m, k))
  }

  /** The four words a schedule step needs. */
  lemma RingHolds(l: seq<word>, m: Block, i: nat)
    requires 16 <= i && Ring(l, m, i)
    ensures |l| == 16 && l[(i + 13) % 16] == W(m, i - 3) && l[(i + 8) % 16] == W(m, i - 8)
    ensures l[(i + 2) % 16] == W(m, i - 14) && l[i % 16] == W(m, i - 16)
  {
    hide W;
    assert (i + 13) % 16 == (i - 3) % 16 && (i + 8) % 16 == (i - 8) % 16;
    assert (i + 2) % 16 == (i - 14) % 16 && i % 16 == (i - 16) % 16;
  }

  lemma ScheduleStep(m: Block, i: nat)
    requires i >= 16
    ensures W(m, i) == Expanded(W(m, i - 3), W(m, i - 8), W(m, i - 14), W(m, i - 16))
  {
    hide Expanded;
  }

  /** The new word takes the place of the oldest. */
  lemma RingMoves(l: seq<word>, m: Block, i: nat)
    requires 16 <= i && Ring(l, m, i)
    ensures |l| == 16 && Ring(l[i % 16 := W(m, i)], m, i + 1)
  {
    hide W, Loaded;
  }

  method Blk0(l: array<word>, ghost m: Block, i: nat) returns (w: word)
    requires i < 16 && Ring(l[..], m, i)
    modifies l
    ensures Ring(l[..], m, i + 1) && w == W(m, i)
  {
    hide Rol, Loaded, Ring, W;
    FirstLoaded(l[..], m, i);
    w := (Rol(l[i], 24) & 0xFF00FF00) | (Rol(l[i], 8) & 0x00FF00FF);
    SwapsToWord(m, i);
    RingTakes(l[..], m, i);
    l[i] := w;
  }

  lemma FirstLoaded(l: seq<word>, m: Block, i: nat)
    requires i < 16 && Ring(l, m, i)
    ensures |l| == 16 && l[i] == Loaded(m, i)
  {
    hide Loaded, W;
  }

  lemma SwapsToWord(m: Block, i: nat)
    requires i < 16
    ensures (Rol(Loaded(m, i), 24) & 0xFF00FF00) | (Rol(Loaded(m, i), 8) & 0x00FF00FF) == W(m, i)
  {
    hide LittleEndian, BigEndian, Rol;
    SwapLoaded(m[4 * i], m[4 * i + 1], m[4 * i + 2], m[4 * i + 3]);
  }

  lemma RingTakes(l: seq<word>, m: Block, i: nat)
    requires i < 16 && Ring(l, m, i)
    ensures |l| == 16 && Ring(l[i := W(m, i)], m, i + 1)
  {
    hide Loaded, W;
  }

  method Blk(l: array<word>, ghost m: Block, i: nat) returns (w: word)
    requires 16 <= i && Ring(l[..], m, i)
    modifies l
    ensures Ring(l[..], m, i + 1) && w == W(m, i)
  {
    hide Expanded, W, Ring;
    RingHolds(l[..], m, i);
    w := Expanded(l[(i + 13) % 16], l[(i + 8) % 16], l[(i + 2) % 16], l[i % 16]);
    ScheduleStep(m, i);
    RingMoves(l[..], m, i);
    l[i % 16] := w;
  }

  /** One macro expansion is one step of the loop: the registers are renamed instead of moved. */
  lemma RoundDone(m: Block, h: Regs, i: nat, r: Regs, mix: word, w: word)
    requires Rounds(m, h, i) == r && mix == F(i, r.b, r.c, r.d) && w == W(m, i)
    ensures Rounds(m, h, i + 1) == Regs(Raised(r.e, mix, w, K(i), Rol(r.a, 5)), r.a, Rol(r.b, 30), r.c, r.d)
  {
    hide F, K, W, Rol, Raised, Sum;
    SumOrder(r.e, mix, w, K(i), Rol(r.a, 5));
  }

  method R0(l: array<word>, ghost m: Block, ghost h: Regs,
          v: word, w: word, x: word, y: word, z: word, i: nat)
    returns (newW: word, newZ: word)
    requires i < 16 && Ring(l[..], m, i) && Rounds(m, h, i) == Regs(v, w, x, y, z)
    modifies l
    ensures Ring(l[..], m, i + 1) && Rounds(m, h, i + 1) == Regs(newZ, v, newW, x, y)
  {
    hide Ring, W, Rol, Ch, Maj, Rounds, Raised;
    var word := Blk0(l, m, i);
    var mix := (w & (x ^ y)) ^ y;
    ChForm(w, x, y);
    newZ := Raised(z, mix, word, 0x5A827999, Rol(v, 5));
    newW := Rol(w, 30);
    RoundDone(m, h, i, Regs(v, w, x, y, z), mix, word);
  }

  method R1(l: array<word>, ghost m: Block, ghost h: Regs,
          v: word, w: word, x: word, y: word, z: word, i: nat)
    returns (newW: word, newZ: word)
    requires 16 <= i < 20 && Ring(l[..], m, i) && Rounds(m, h, i) == Regs(v, w, x, y, z)
    modifies l
    ensures Ring(l[..], m, i + 1) && Rounds(m, h, i + 1) == Regs(newZ, v, newW, x, y)
  {
    hide Ring, W, Rol, Ch, Maj, Rounds, Raised;
    var word := Blk(l, m, i);
    var mix := (w & (x ^ y)) ^ y;
    ChForm(w, x, y);
    newZ := Raised(z, mix, word, 0x5A827999, Rol(v, 5));
    newW := Rol(w, 30);
    RoundDone(m, h, i, Regs(v, w, x, y, z), mix, word);
  }

  method R2(l: array<word>, ghost m: Block, ghost h: Regs,
          v: word, w: word, x: word, y: word, z: word, i: nat)
    returns (newW: word, newZ: word)
    requires 20 <= i < 40 && Ring(l[..], m, i) && Rounds(m, h, i) == Regs(v, w, x, y, z)
    modifies l
    ensures Ring(l[..], m, i + 1) && Rounds(m, h, i + 1) == Regs(newZ, v, newW, x, y)
  {
    hide Ring, W, Rol, Ch, Maj, Rounds, Raised;
    var word := Blk(l, m, i);
    var mix := w ^ x ^ y;
    newZ := Raised(z, mix, word, 0x6ED9EBA1, Rol(v, 5));
    newW := Rol(w, 30);
    RoundDone(m, h, i, Regs(v, w, x, y, z), mix, word);
  }

  method R3(l: array<word>, ghost m: Block, ghost h: Regs,
          v: word, w: word, x: word, y: word, z: word, i: nat)
    returns (newW: word, newZ: word)
    requires 40 <= i < 60 && Ring(l[..], m, i) && Rounds(m, h, i) == Regs(v, w, x, y, z)
    modifies l
    ensures Ring(l[..], m, i + 1) && Rounds(m, h, i + 1) == Regs(newZ, v, newW, x, y)
  {
    hide Ring, W, Rol, Ch, Maj, Rounds, Raised;
    var word := Blk(l, m, i);
    var mix := ((w | x) & y) | (w & x);
    MajForm(w, x, y);
    newZ := Raised(z, mix, word, 0x8F1BBCDC, Rol(v, 5));
    newW := Rol(w, 30);
    RoundDone(m, h, i, Regs(v, w, x, y, z), mix, word);
  }

  method R4(l: array<word>, ghost m: Block, ghost h: Regs,
          v: word, w: word, x: word, y: word, z: word, i: nat)
    returns (newW: word, newZ: word)
    requires 60 <= i < 80 && Ring(l[..], m, i) && Rounds(m, h, i) == Regs(v, w, x, y, z)
    modifies l
    ensures Ring(l[..], m, i + 1) && Rounds(m, h, i + 1) == Regs(newZ, v, newW, x, y)
  {
    hide Ring, W, Rol, Ch, Maj, Rounds, Raised;
    var word := Blk(l, m, i);
    var mix := w ^ x ^ y;
    newZ := Raised(z, mix, word, 0xCA62C1D6, Rol(v, 5));
    newW := Rol(w, 30);
    RoundDone(m, h, i, Regs(v, w, x, y, z), mix, word);
  }

  method FirstTwenty(l: array<word>, ghost m: Block, ghost h: Regs, r: Regs) returns (s: Regs)
    requires Ring(l[..], m, 0) && Rounds(m, h, 0) == r
    modifies l
    ensures Ring(l[..], m, 20) && Rounds(m, h, 20) == s
  {
    hide Ring, Rounds;
    var a, b, c, d, e := r.a, r.b, r.c, r.d, r.e;
    b, e := R0(l, m, h, a, b, c, d, e, 0);
    a, d := R0(l, m, h, e, a, b, c, d, 1);
    e, c := R0(l, m, h, d, e, a, b, c, 2);
    d, b := R0(l, m, h, c, d, e, a, b, 3);
    c, a := R0(l, m, h, b, c, d, e, a, 4);
    b, e := R0(l, m, h, a, b, c, d, e, 5);
    a, d := R0(l, m, h, e, a, b, c, d, 6);
    e, c := R0(l, m, h, d, e, a, b, c, 7);
    d, b := R0(l, m, h, c, d, e, a, b, 8);
    c, a := R0(l, m, h, b, c, d, e, a, 9);
    b, e := R0(l, m, h, a, b, c, d, e, 10);
    a, d := R0(l, m, h, e, a, b, c, d, 11);
    e, c := R0(l, m, h, d, e, a, b, c, 12);
    d, b := R0(l, m, h, c, d, e, a, b, 13);
    c, a := R0(l, m, h, b, c, d, e, a, 14);
    b, e := R0(l, m, h, a, b, c, d, e, 15);
    a, d := R1(l, m, h, e, a, b, c, d, 16);
    e, c := R1(l, m, h, d, e, a, b, c, 17);
    d, b := R1(l, m, h, c, d, e, a, b, 18);
    c, a := R1(l, m, h, b, c, d, e, a, 19);
    s := Regs(a, b, c, d, e);
  }

  method SecondTwenty(l: array<word>, ghost m: Block, ghost h: Regs, r: Regs) returns (s: Regs)
    requires Ring(l[..], m, 20) && Rounds(m, h, 20) == r
    modifies l
    ensures Ring(l[..], m, 40) && Rounds(m, h, 40) == s
  {
    hide Ring, Rounds;
    var a, b, c, d, e := r.a, r.b, r.c, r.d, r.e;
    b, e := R2(l, m, h, a, b, c, d, e, 20);
    a, d := R2(l, m, h, e, a, b, c, d, 21);
    e, c := R2(l, m, h, d, e, a, b, c, 22);
    d, b := R2(l, m, h, c, d, e, a, b, 23);
    c, a := R2(l, m, h, b, c, d, e, a, 24);
    b, e := R2(l, m, h, a, b, c, d, e, 25);
    a, d := R2(l, m, h, e, a, b, c, d, 26);
    e, c := R2(l, m, h, d, e, a, b, c, 27);
    d, b := R2(l, m, h, c, d, e, a, b, 28);
    c, a := R2(l, m, h, b, c, d, e, a, 29);
    b, e := R2(l, m, h, a, b, c, d, e, 30);
    a, d := R2(l, m, h, e, a, b, c, d, 31);
    e, c := R2(l, m, h, d, e, a, b, c, 32);
    d, b := R2(l, m, h, c, d, e, a, b, 33);
    c, a := R2(l, m, h, b, c, d, e, a, 34);
    b, e := R2(l, m, h, a, b, c, d, e, 35);
    a, d := R2(l, m, h, e, a, b, c, d, 36);
    e, c := R2(l, m, h, d, e, a, b, c, 37);
    d, b := R2(l, m, h, c, d, e, a, b, 38);
    c, a := R2(l, m, h, b, c, d, e, a, 39);
    s := Regs(a, b, c, d, e);
  }

  method ThirdTwenty(l: array<word>, ghost m: Block, ghost h: Regs, r: Regs) returns (s: Regs)
    requires Ring(l[..], m, 40) && Rounds(m, h, 40) == r
    modifies l
    ensures Ring(l[..], m, 60) && Rounds(m, h, 60) == s
  {
    hide Ring, Rounds;
    var a, b, c, d, e := r.a, r.b, r.c, r.d, r.e;
    b, e := R3(l, m, h, a, b, c, d, e, 40);
    a, d := R3(l, m, h, e, a, b, c, d, 41);
    e, c := R3(l, m, h, d, e, a, b, c, 42);
    d, b := R3(l, m, h, c, d, e, a, b, 43);
    c, a := R3(l, m, h, b, c, d, e, a, 44);
    b, e := R3(l, m, h, a, b, c, d, e, 45);
    a, d := R3(l, m, h, e, a, b, c, d, 46);
    e, c := R3(l, m, h, d, e, a, b, c, 47);
    d, b := R3(l, m, h, c, d, e, a, b, 48);
    c, a := R3(l, m, h, b, c, d, e, a, 49);
    b, e := R3(l, m, h, a, b, c, d, e, 50);
    a, d := R3(l, m, h, e, a, b, c, d, 51);
    e, c := R3(l, m, h, d, e, a, b, c, 52);
    d, b := R3(l, m, h, c, d, e, a, b, 53);
    c, a := R3(l, m, h, b, c, d, e, a, 54);
    b, e := R3(l, m, h, a, b, c, d, e, 55);
    a, d := R3(l, m, h, e, a, b, c, d, 56);
    e, c := R3(l, m, h, d, e, a, b, c, 57);
    d, b := R3(l, m, h, c, d, e, a, b, 58);
    c, a := R3(l, m, h, b, c, d, e, a, 59);
    s := Regs(a, b, c, d, e);
  }

  method FourthTwenty(l: array<word>, ghost m: Block, ghost h: Regs, r: Regs) returns (s: Regs)
    requires Ring(l[..], m, 60) && Rounds(m, h, 60) == r
    modifies l
    ensures Ring(l[..], m, 80) && Rounds(m, h, 80) == s
  {
    hide Ring, Rounds;
    var a, b, c, d, e := r.a, r.b, r.c, r.d, r.e;
    b, e := R4(l, m, h, a, b, c, d, e, 60);
    a, d := R4(l, m, h, e, a, b, c, d, 61);
    e, c := R4(l, m, h, d, e, a, b, c, 62);
    d, b := R4(l, m, h, c, d, e, a, b, 63);
    c, a := R4(l, m, h, b, c, d, e, a, 64);
    b, e := R4(l, m, h, a, b, c, d, e, 65);
    a, d := R4(l, m, h, e, a, b, c, d, 66);
    e, c := R4(l, m, h, d, e, a, b, c, 67);
    d, b := R4(l, m, h, c, d, e, a, b, 68);
    c, a := R4(l, m, h, b, c, d, e, a, 69);
    b, e := R4(l, m, h, a, b, c, d, e, 70);
    a, d := R4(l, m, h, e, a, b, c, d, 71);
    e, c := R4(l, m, h, d, e, a, b, c, 72);
    d, b := R4(l, m, h, c, d, e, a, b, 73);
    c, a := R4(l, m, h, b, c, d, e, a, 74);
    b, e := R4(l, m, h, a, b, c, d, e, 75);
    a, d := R4(l, m, h, e, a, b, c, d, 76);
    e, c := R4(l, m, h, d, e, a, b, c, 77);
    d, b := R4(l, m, h, c, d, e, a, b, 78);
    c, a := R4(l, m, h, b, c, d, e, a, 79);
    s := Regs(a, b, c, d, e);
  }

  function RegsOf(state: seq<word>): Regs
    requires |state| == 5
  {
    Regs(state[0], state[1], state[2], state[3], state[4])
  }

  /** The eighty rounds over a private copy of the block. */
  method AllRounds(h: Regs, buffer: Block) returns (r: Regs)
    ensures r == Rounds(buffer, h, 80)
  {
    hide W, Loaded, Rounds;
    var block := new word[16](k requires 0 <= k < 16 => Loaded(buffer, k));
    assert Ring(block[..], buffer, 0);
    hide Ring;
    RoundsNone(buffer, h);
    r := FirstTwenty(block, buffer, h, h);
    r := SecondTwenty(block, buffer, h, r);
    r := ThirdTwenty(block, buffer, h, r);
    r := FourthTwenty(block, buffer, h, r);
  }

  /** Hashes one block into the five state words. */
  method Transform(state: array<word>, buffer: Block)
    requires state.Length == 5
    modifies state
    ensures RegsOf(state[..]) == Compress(old(RegsOf(state[..])), buffer)
  {
    hide Rounds, Plus;
    var h := Regs(state[0], state[1], state[2], state[3], state[4]);
    var r := AllRounds(h, buffer);
    state[0] := Plus(h.a, r.a);
    state[1] := Plus(h.b, r.b);
    state[2] := Plus(h.c, r.c);
    state[3] := Plus(h.d, r.d);
    state[4] := Plus(h.e, r.e);
  }

  lemma RoundsNone(m: Block, h: Regs)
    ensures Rounds(m, h, 0) == h
  {
  }

  const MOD32 := 0x1_0000_0000
  const MOD64 := 0x1_0000_0000_0000_0000

  /** The context after `m`: whole blocks absorbed, the rest buffered, the bit count in two words. */
  ghost predicate Context(h: Regs, buffer: seq<octet>, count0: nat, count1: nat, m: seq<octet>) {
    var used := |m| % 64;
    && |buffer| == 64
    && h == Absorb(H0, m[..|m| - used])
    && buffer[..used] == m[|m| - used..]
    && count0 < MOD32 && count1 < MOD32
    && count1 * MOD32 + count0 == 8 * |m| % MOD64
  }

  lemma WholeTurns(v: nat, q: int, x: nat)
    requires v < MOD64 && v == x - q * MOD64
    ensures v == x % MOD64
  {
  }

  /** The two-word count with its carry is one count of bits modulo 2^64. */
  lemma CountsBits(count0: nat, count1: nat, bits: nat, len: nat)
    requires count0 < MOD32 && count1 < MOD32 && len < MOD32
    requires count1 * MOD32 + count0 == bits % MOD64
    ensures
      var low := (count0 + len * 8 % MOD32) % MOD32;
      var carried := if low < count0 then (count1 + 1) % MOD32 else count1;
      var high := (carried + len / 0x2000_0000) % MOD32;
      high * MOD32 + low == (bits + 8 * len) % MOD64
  {
    var top, rest := len / 0x2000_0000, len % 0x2000_0000;
    assert len * 8 == top * MOD32 + rest * 8 && 0 <= rest * 8 < MOD32;
    var carry := if count0 + rest * 8 < MOD32 then 0 else 1;
    var low := count0 + rest * 8 - carry * MOD32;
    var total := count1 + carry + top;
    var high, turns := total % MOD32, total / MOD32;
    assert total == turns * MOD32 + high;
    var whole := bits / MOD64;
    assert bits == whole * MOD64 + bits % MOD64;
    HighWord(count1, carry, top);
    assert high * MOD32 + low == bits + 8 * len - (turns + whole) * MOD64;
    WholeTurns(high * MOD32 + low, turns + whole, bits + 8 * len);
    LowWord(count0, len, rest, low);
  }

  lemma HighWord(count1: nat, carry: nat, top: nat)
    requires count1 < MOD32 && carry <= 1
    ensures ((if carry == 1 then (count1 + 1) % MOD32 else count1) + top) % MOD32 == (count1 + carry + top) % MOD32
  {
  }

  lemma LowWord(count0: nat, len: nat, rest: nat, low: nat)
    requires rest == len % 0x2000_0000 && count0 < MOD32
    requires low == count0 + rest * 8 - if count0 + rest * 8 < MOD32 then 0 else MOD32
    ensures low == (count0 + len * 8 % MOD32) % MOD32
  {
    var shifted := len * 8;
    assert shifted == len / 0x2000_0000 * MOD32 + rest * 8;
    assert shifted % MOD32 == rest * 8;
    var sum := count0 + rest * 8;
    assert sum % MOD32 == if sum < MOD32 then sum else sum - MOD32;
  }

  /** Bits 3 to 8 of the low word say how much of the buffer is in use. */
  lemma CountFindsPlace(count0: nat, count1: nat, n: nat)
    requires count1 * MOD32 + count0 == 8 * n % MOD64
    ensures count0 / 8 % 64 == n % 64
  {
    var whole := 8 * n / MOD64;
    assert 8 * n == whole * MOD64 + count1 * MOD32 + count0;
    var up := whole * 0x800_0000_0000_000 + count1 * 0x80_0000;
    assert count0 == 8 * (n - 64 * up);
  }

  class Sha1Context {
    const state: array<word>
    const buffer: array<octet>
    var count0: nat
    var count1: nat
    ghost var message: seq<octet>

    ghost predicate Shape()
    {
      state.Length == 5 && buffer.Length == 64
    }

    /** The context stands for `message`. */
    ghost predicate Valid()
      reads this, state, buffer
    {
      Shape() && Context(RegsOf(state[..]), buffer[..], count0, count1, message)
    }

    constructor ()
      ensures Shape() && fresh(state) && fresh(buffer)
    {
      state := new word[5];
      buffer := new octet[64];
    }

    method Init()
      requires Shape()
      modifies this, state
      ensures Valid() && message == []
    {
      state[0] := 0x67452301;
      state[1] := 0xEFCDAB89;
      state[2] := 0x98BADCFE;
      state[3] := 0x10325476;
      state[4] := 0xC3D2E1F0;
      count0, count1 := 0, 0;
      message := [];
    }

    method Count(len: nat)
      requires count0 < MOD32 && count1 < MOD32 && len < MOD32
      requires count1 * MOD32 + count0 == 8 * |message| % MOD64
      modifies `count0, `count1
      ensures count0 < MOD32 && count1 < MOD32
      ensures count1 * MOD32 + count0 == 8 * (|message| + len) % MOD64
    {
      CountsBits(count0, count1, 8 * |message|, len);
      var j := count0;
      count0 := (count0 + len * 8 % MOD32) % MOD32;
      if count0 < j {
        count1 := (count1 + 1) % MOD32;
      }
      count1 := (count1 + len / 0x2000_0000) % MOD32;
    }

    /** Hashes the whole blocks of `data` from `from` on; `before` is what came earlier. */
    method WholeBlocks(ghost before: seq<octet>, data: seq<octet>, from: nat) returns (i: nat)
      requires Shape() && from <= |data| && (|before| + from) % 64 == 0
      requires RegsOf(state[..]) == Absorb(H0, (before + data)[..|before| + from])
      modifies state
      ensures from <= i <= |data| < i + 64 && (|before| + i) % 64 == 0
      ensures RegsOf(state[..]) == Absorb(H0, (before + data)[..|before| + i])
    {
      hide Absorb, Compress, RegsOf;
      i := from;
      while i + 63 < |data|
        invariant from <= i <= |data| && (|before| + i) % 64 == 0
        invariant RegsOf(state[..]) == Absorb(H0, (before + data)[..|before| + i])
      {
        NextBlock(before, data, i);
        Transform(state, data[i..i + 64]);
        i := i + 64;
      }
    }

    /** Fills up the buffer and hashes it. */
    method FillBlock(data: seq<octet>, j: nat)
      requires Shape() && j == |message| % 64 && j + |data| > 63
      requires RegsOf(state[..]) == Absorb(H0, message[..|message| - j])
      requires buffer[..j] == message[|message| - j..]
      modifies state, buffer
      ensures RegsOf(state[..]) == Absorb(H0, (message + data)[..|message| + 64 - j])
    {
      hide Absorb, Compress, RegsOf;
      Copy(buffer, j, data[..64 - j]);
      assert buffer[..] == buffer[..j] + buffer[j..64];
      FirstBlock(message, data, j);
      Transform(state, buffer[..]);
    }

    method Keep(j: nat, rest: seq<octet>)
      requires Shape() && j + |rest| < 64
      modifies buffer
      ensures buffer[..j + |rest|] == old(buffer[..j]) + rest
    {
      Copy(buffer, j, rest);
    }

    method Update(data: seq<octet>)
      requires Valid() && |data| <= 0xFFFF_FFC0
      modifies this, state, buffer
      ensures Valid() && message == old(message) + data
    {
      hide Absorb, RegsOf, Context;
      ghost var before := message;
      ContextHas(RegsOf(state[..]), buffer[..], count0, count1, before, |before| % 64);
      CountFindsPlace(count0, count1, |before|);
      var j := count0 / 8 % 64;
      Count(|data|);
      var i: nat := 0;
      ghost var started := j + |data| > 63;
      if j + |data| > 63 {
        FillBlock(data, j);
        WholeTurn64(|before|, j);
        i := WholeBlocks(before, data, 64 - j);
        j := 0;
      }
      ghost var kept := buffer[..j];
      Keep(j, data[i..]);
      message := before + data;
      Rest(before, data, j, i, started, RegsOf(state[..]), kept, buffer[..], count0, count1);
    }

    /** The bit count, the second count word first, as eight octets. */
    method CountOctets() returns (finalcount: seq<octet>)
      requires count0 < MOD32 && count1 < MOD32
      requires count1 * MOD32 + count0 == 8 * |message| < MOD64
      ensures finalcount == Length64(8 * |message|)
    {
      LengthOfCount(count0, count1, 8 * |message|);
      hide CountOctet, Length64, CountSplit;
      finalcount := [];
      ghost var split := CountSplit(count0, count1);
      var i: nat := 0;
      while i < 8
        invariant i <= 8 && finalcount == split[..i]
      {
        var count := if i >= 4 then count0 else count1;
        CountSplitAt(count0, count1, i);
        finalcount := finalcount + [CountOctet(count, i % 4)];
        i := i + 1;
      }
    }

    lemma Place()
      requires Valid()
      ensures count0 / 8 % 64 == |message| % 64
    {
      CountFindsPlace(count0, count1, |message|);
    }

    /** Appends the marker and then zeros until the length field fits; the loop ends. */
    method PadOut()
      requires Valid()
      modifies this, state, buffer
      ensures Valid() && message == old(message) + [0x80] + Zeros(PadZeros(old(|message|)))
    {
      hide Context, Zeros;
      ghost var m, k := message, 0;
      ZerosStep(0);
      Update([0x80]);
      Place();
      while count0 / 8 % 64 != 56
        invariant Valid() && message == m + [0x80] + Zeros(k) && k <= PadZeros(|m|)
        invariant count0 / 8 % 64 == |message| % 64
        decreases PadZeros(|m|) - k
      {
        PadStep(|m|, k);
        Update([0]);
        k := k + 1;
        ZerosStep(k);
        Place();
      }
      PadStep(|m|, k);
    }

    method Final(digest: array<octet>)
      requires Valid() && |message| < 0x2000_0000_0000_0000
      requires digest.Length == 20 && digest != buffer
      modifies this, state, buffer, digest
      ensures digest[..] == Sha1(old(message))
      ensures forall k :: 0 <= k < 5 ==> state[k] == 0
      ensures forall k :: 0 <= k < 64 ==> buffer[k] == 0
      ensures count0 == count1 == 0
    {
      hide Absorb, RegsOf, Digest, Length64, PadZeros, Zeros;
      ghost var m := message;
      var finalcount := CountOctets();
      PadOut();
      Update(finalcount);
      assert message == Pad(m);
      assert message[..|message|] == message;
      WriteDigest(digest);
      Wipe();
    }

    method Wipe()
      requires Shape()
      modifies this`count0, this`count1, state, buffer
      ensures forall k :: 0 <= k < 5 ==> state[k] == 0
      ensures forall k :: 0 <= k < 64 ==> buffer[k] == 0
      ensures count0 == count1 == 0
    {
      count0, count1 := 0, 0;
      forall k | 0 <= k < 5 {
        state[k] := 0;
      }
      forall k | 0 <= k < 64 {
        buffer[k] := 0;
      }
    }

    method WriteDigest(digest: array<octet>)
      requires Shape() && digest.Length == 20
      modifies digest
      ensures digest[..] == Digest(RegsOf(state[..]))
    {
      hide WordOctet, Digest;
      var i := 0;
      while i < 20
        invariant 0 <= i <= 20
        invariant digest[..i] == Digest(RegsOf(state[..]))[..i]
      {
        DigestAt(state[..], i);
        digest[i] := WordOctet(state[i / 4], i % 4);
        i := i + 1;
      }
    }
  }

  const SHIFTS := [0x100_0000, 0x1_0000, 0x100, 1]

  /** Octet `k` of a count word, the most significant first. */
  function CountOctet(count: nat, k: nat): octet
    requires k < 4
  {
    Octet(count / SHIFTS[k])
  }

  function CountSplit(count0: nat, count1: nat): (s: seq<octet>)
    ensures |s| == 8
  {
    [CountOctet(count1, 0), CountOctet(count1, 1), CountOctet(count1, 2), CountOctet(count1, 3),
     CountOctet(count0, 0), CountOctet(count0, 1), CountOctet(count0, 2), CountOctet(count0, 3)]
  }

  lemma CountSplitAt(count0: nat, count1: nat, i: nat)
    requires i < 8
    ensures
      CountSplit(count0, count1)[i] == CountOctet(if i >= 4 then count0 else count1, i % 4)
  {
    hide CountOctet;
  }

  lemma WordOctetsAt(w: word, k: nat)
    requires k < 4
    ensures WordOctets(w)[k] == WordOctet(w, k)
  {
  }

  lemma JoinedAt(p: seq<octet>, q: seq<octet>, r: seq<octet>, s: seq<octet>, t: seq<octet>, i: nat)
    requires |p| == |q| == |r| == |s| == |t| == 4 && i < 20
    ensures
      (p + q + r + s + t)[i] ==
      (if i < 4 then p else if i < 8 then q else if i < 12 then r else if i < 16 then s else t)[i % 4]
  {
  }

  lemma DigestAt(state: seq<word>, i: nat)
    requires |state| == 5 && i < 20
    ensures Digest(RegsOf(state))[i] == WordOctet(state[i / 4], i % 4)
  {
    WordOctetsAt(state[i / 4], i % 4);
    hide WordOctet, WordOctets;
    var p, q, r := WordOctets(state[0]), WordOctets(state[1]), WordOctets(state[2]);
    var s, t := WordOctets(state[3]), WordOctets(state[4]);
    assert Digest(RegsOf(state)) == p + q + r + s + t;
    hide Digest, RegsOf;
    JoinedAt(p, q, r, s, t, i);
    FifthOf(i);
  }

  lemma FifthOf(i: nat)
    requires i < 20
    ensures i / 4 == if i < 4 then 0 else if i < 8 then 1 else if i < 12 then 2 else if i < 16 then 3 else 4
  {
  }

  lemma LengthOfCount(count0: nat, count1: nat, bits: nat)
    requires count0 < MOD32 && bits == count1 * MOD32 + count0
    ensures CountSplit(count0, count1) == Length64(bits)
  {
    HighOctets(count0, count1, bits);
    LowOctets(count0, count1, bits);
    hide Octet;
  }

  lemma HighOctets(count0: nat, count1: nat, bits: nat)
    requires count0 < MOD32 && bits == count1 * MOD32 + count0
    ensures bits / 0x100_0000_0000_0000 == count1 / 0x100_0000
    ensures bits / 0x1_0000_0000_0000 == count1 / 0x1_0000
    ensures bits / 0x100_0000_0000 == count1 / 0x100
    ensures bits / 0x1_0000_0000 == count1
  {
  }

  lemma LowOctets(count0: nat, count1: nat, bits: nat)
    requires count0 < MOD32 && bits == count1 * MOD32 + count0
    ensures Octet(bits / 0x100_0000) == Octet(count0 / 0x100_0000)
    ensures Octet(bits / 0x1_0000) == Octet(count0 / 0x1_0000)
    ensures Octet(bits / 0x100) == Octet(count0 / 0x100)
    ensures Octet(bits) == Octet(count0)
  {
    OctetWraps(bits / 0x100_0000, count1, count0 / 0x100_0000);
    OctetWraps(bits / 0x1_0000, count1 * 0x100, count0 / 0x1_0000);
    OctetWraps(bits / 0x100, count1 * 0x1_0000, count0 / 0x100);
    OctetWraps(bits, count1 * 0x100_0000, count0);
  }

  lemma OctetWraps(x: nat, k: nat, y: nat)
    requires x == 0x100 * k + y
    ensures Octet(x) == Octet(y)
  {
    hide Narrow;
    assert x % 256 == y % 256;
  }

  lemma ZerosStep(k: nat)
    ensures if k == 0 then Zeros(k) == [] else Zeros(k) == Zeros(k - 1) + [0]
  {
  }

  lemma PadStep(n: nat, k: nat)
    requires k <= PadZeros(n)
    ensures (n + 1 + k) % 64 == 56 <==> k == PadZeros(n)
  {
  }

  lemma WholeTurn64(n: nat, j: nat)
    requires j == n % 64
    ensures (n + (64 - j)) % 64 == 0
  {
  }

  lemma NextBlock(before: seq<octet>, data: seq<octet>, i: nat)
    requires i + 64 <= |data| && (|before| + i) % 64 == 0
    ensures
      var all, p := before + data, |before| + i;
      (p + 64) % 64 == 0 &&
      Absorb(H0, all[..p + 64]) == Compress(Absorb(H0, all[..p]), data[i..i + 64])
  {
    hide Absorb, Compress;
    AbsorbNext(H0, before + data, |before| + i);
    SliceBehind(before, data, i, 64);
  }

  lemma SliceBehind(before: seq<octet>, data: seq<octet>, i: nat, n: nat)
    requires i + n <= |data|
    ensures (before + data)[|before| + i..|before| + i + n] == data[i..i + n]
  {
  }

  lemma FirstBlock(before: seq<octet>, data: seq<octet>, j: nat)
    requires j == |before| % 64 && j + |data| > 63
    ensures
      var p := |before| - j;
      (p + 64) % 64 == 0 &&
      Absorb(H0, (before + data)[..p + 64]) == Compress(Absorb(H0, before[..p]), before[p..] + data[..64 - j])
  {
    hide Absorb, Compress;
    var all, p := before + data, |before| - j;
    AbsorbNext(H0, all, p);
    assert all[..p] == before[..p];
    assert all[p..p + 64] == before[p..] + data[..64 - j];
  }

  /** Either way the context stands for the longer message. */
  lemma Rest(before: seq<octet>, data: seq<octet>, j: nat, i: nat, started: bool,
             h: Regs, kept: seq<octet>, buffer: seq<octet>, count0: nat, count1: nat)
    requires i <= |data| && |kept| == j && |buffer| == 64 && j + |data| - i < 64
    requires buffer[..j + |data| - i] == kept + data[i..]
    requires count0 < MOD32 && count1 < MOD32
    requires count1 * MOD32 + count0 == 8 * (|before| + |data|) % MOD64
    requires
      if started then j == 0 && |data| < i + 64 && (|before| + i) % 64 == 0 && h == Absorb(H0, (before + data)[..|before| + i])
      else i == 0 && j == |before| % 64 && h == Absorb(H0, before[..|before| - j]) && kept == before[|before| - j..]
    ensures Context(h, buffer, count0, count1, before + data)
  {
    hide Absorb, Context;
    if started {
      Prepends(kept, data[i..]);
      RestOfBlocks(before, data, i, h, buffer, count0, count1);
    } else {
      WholeSuffix(data, i);
      RestOnly(before, data, h, buffer, count0, count1);
    }
  }

  lemma RestOfBlocks(before: seq<octet>, data: seq<octet>, i: nat, h: Regs, buffer: seq<octet>, count0: nat, count1: nat)
    requires i <= |data| < i + 64 && (|before| + i) % 64 == 0 && |buffer| == 64
    requires buffer[..|data| - i] == data[i..] && h == Absorb(H0, (before + data)[..|before| + i])
    requires count0 < MOD32 && count1 < MOD32
    requires count1 * MOD32 + count0 == 8 * (|before| + |data|) % MOD64
    ensures Context(h, buffer, count0, count1, before + data)
  {
    hide Absorb, Context;
    RestStarts(before, data, i);
    WholeRest(|before + data|, |data| - i);
    ContextIs(h, buffer, count0, count1, before + data, |data| - i);
  }

  lemma RestOnly(before: seq<octet>, data: seq<octet>, h: Regs, buffer: seq<octet>, count0: nat, count1: nat)
    requires var j := |before| % 64; j + |data| <= 63 && |buffer| == 64
    requires
      var j := |before| % 64;
      buffer[..j + |data|] == before[|before| - j..] + data && h == Absorb(H0, before[..|before| - j])
    requires count0 < MOD32 && count1 < MOD32
    requires count1 * MOD32 + count0 == 8 * (|before| + |data|) % MOD64
    ensures Context(h, buffer, count0, count1, before + data)
  {
    hide Absorb, Context;
    var j := |before| % 64;
    RestGrows(before, data, j);
    WholeRest(|before + data|, j + |data|);
    ContextIs(h, buffer, count0, count1, before + data, j + |data|);
  }

  lemma WholeSuffix(data: seq<octet>, i: nat)
    requires i == 0
    ensures data[i..] == data
  {
  }

  lemma Prepends(kept: seq<octet>, rest: seq<octet>)
    ensures |kept| == 0 ==> kept + rest == rest
  {
  }

  lemma WholeRest(n: nat, j: nat)
    requires j == n % 64
    ensures j <= n && (n - j) % 64 == 0
  {
  }

  lemma ContextHas(h: Regs, buffer: seq<octet>, count0: nat, count1: nat, m: seq<octet>, j: nat)
    requires Context(h, buffer, count0, count1, m) && j == |m| % 64
    ensures |buffer| == 64 && j <= |m| && (|m| - j) % 64 == 0
    ensures h == Absorb(H0, m[..|m| - j]) && buffer[..j] == m[|m| - j..]
    ensures count0 < MOD32 && count1 < MOD32 && count1 * MOD32 + count0 == 8 * |m| % MOD64
  {
    hide Absorb;
    WholeRest(|m|, j);
  }

  lemma ContextIs(h: Regs, buffer: seq<octet>, count0: nat, count1: nat, m: seq<octet>, used: nat)
    requires used == |m| % 64 && |buffer| == 64 && used <= |m| && (|m| - used) % 64 == 0
    requires h == Absorb(H0, m[..|m| - used]) && buffer[..used] == m[|m| - used..]
    requires count0 < MOD32 && count1 < MOD32 && count1 * MOD32 + count0 == 8 * |m| % MOD64
    ensures Context(h, buffer, count0, count1, m)
  {
    hide Absorb;
  }

  /** With no block to hash, all of `data` joins the buffered rest. */
  lemma RestGrows(before: seq<octet>, data: seq<octet>, j: nat)
    requires j == |before| % 64 && j + |data| <= 63
    ensures
      var all, used := before + data, j + |data|;
      && used == |all| % 64
      && before[|before| - j..] + data == all[|all| - used..]
      && before[..|before| - j] == all[..|all| - used]
  {
  }

  /** After hashing up to `data[i]`, less than a block is left. */
  lemma RestStarts(before: seq<octet>, data: seq<octet>, i: nat)
    requires i <= |data| < i + 64 && (|before| + i) % 64 == 0
    ensures
      var all, used := before + data, |data| - i;
      && used == |all| % 64
      && data[i..] == all[|all| - used..]
      && |all| - used == |before| + i
  {
  }

  /** Init, any number of updates, Final: the digest depends only on the joined message. */
  method HashParts(context: Sha1Context, parts: seq<seq<octet>>, digest: array<octet>)
    requires context.Shape() && digest.Length == 20 && digest != context.buffer
    requires forall k :: 0 <= k < |parts| ==> |parts[k]| <= 0xFFFF_FFC0
    requires |Flatten(parts)| < 0x2000_0000_0000_0000
    modifies context, context.state, context.buffer, digest
    ensures digest[..] == Sha1(Flatten(parts))
  {
    hide Sha1, Context, Flatten;
    context.Init();
    FlattenNone<octet>();
    var i := 0;
    while i < |parts|
      invariant 0 <= i <= |parts|
      invariant context.Valid() && context.message == Flatten(parts[..i])
    {
      FlattenSnoc(parts, i);
      context.Update(parts[i]);
      i := i + 1;
    }
    assert parts[..i] == parts;
    context.Final(digest);
  }

  lemma FlattenSnoc(parts: seq<seq<octet>>, i: nat)
    requires i < |parts|
    ensures Flatten(parts[..i + 1]) == Flatten(parts[..i]) + parts[i]
  {
    FlattenConcat(parts[..i], [parts[i]]);
    FlattenOne(parts[i]);
    assert parts[..i + 1] == parts[..i] + [parts[i]];
  }
}
