/** The Secure Hash Algorithm SHA-1 as FIPS 180-4 defines it: the reference for the streaming code. */
module Sha1Spec {
  import opened Bytes

  type word = bv32
  type octet = bv8

  /** The working variables a to e, and also the five words of a hash value. */
  datatype Regs = Regs(a: word, b: word, c: word, d: word, e: word)

  function Rol(x: word, n: word): word
    requires 0 < n < 32
  {
    (x << n) | (x >> (32 - n))
  }

  function Ch(x: word, y: word, z: word): word {
    (x & y) ^ (!x & z)
  }

  function Parity(x: word, y: word, z: word): word {
    x ^ y ^ z
  }

  function Maj(x: word, y: word, z: word): word {
    (x & y) ^ (x & z) ^ (y & z)
  }

  /** The round functions of section 4.1.1. */
  function F(t: nat, x: word, y: word, z: word): word {
    if t < 20 then Ch(x, y, z)
    else if t < 40 then Parity(x, y, z)
    else if t < 60 then Maj(x, y, z)
    else Parity(x, y, z)
  }

  /** The constants of section 4.2.1. */
  function K(t: nat): word {
    if t < 20 then 0x5A827999
    else if t < 40 then 0x6ED9EBA1
    else if t < 60 then 0x8F1BBCDC
    else 0xCA62C1D6
  }

  /** Four octets as a word, the first octet leftmost (section 3.1). */
  function BigEndian(p: octet, q: octet, r: octet, s: octet): word {
    (p as word << 24) | (q as word << 16) | (r as word << 8) | (s as word)
  }

  type Block = b: seq<octet> | |b| == 64 witness seq(64, _ => 0)

  function Expanded(p: word, q: word, r: word, s: word): word {
    Rol(p ^ q ^ r ^ s, 1)
  }

  /** The message schedule of section 6.1.2: eighty words from one block. */
  function W(m: Block, t: nat): word {
    if t < 16 then BigEndian(m[4 * t], m[4 * t + 1], m[4 * t + 2], m[4 * t + 3])
    else Expanded(W(m, t - 3), W(m, t - 8), W(m, t - 14), W(m, t - 16))
  }

  function Sum(p: word, q: word, r: word, s: word, t: word): word {
    p + q + r + s + t
  }

  /** One turn of the loop in step 3 of section 6.1.2. */
  function Step(t: nat, r: Regs, w: word): Regs {
    Regs(Sum(Rol(r.a, 5), F(t, r.b, r.c, r.d), r.e, K(t), w), r.a, Rol(r.b, 30), r.c, r.d)
  }

  function Rounds(m: Block, h: Regs, n: nat): Regs {
    if n == 0 then h else Step(n - 1, Rounds(m, h, n - 1), W(m, n - 1))
  }

  function Plus(x: word, y: word): word {
    x + y
  }

  /** The next hash value: step 4 of section 6.1.2. */
  function Compress(h: Regs, m: Block): Regs {
    var r := Rounds(m, h, 80);
    Regs(Plus(h.a, r.a), Plus(h.b, r.b), Plus(h.c, r.c), Plus(h.d, r.d), Plus(h.e, r.e))
  }

  function Absorb(h: Regs, s: seq<octet>): Regs
    requires |s| % 64 == 0
    decreases |s|
  {
    if s == [] then h else Absorb(Compress(h, s[..64]), s[64..])
  }

  /** The initial hash value of section 5.3.1. */
  const H0 := Regs(0x67452301, 0xEFCDAB89, 0x98BADCFE, 0x10325476, 0xC3D2E1F0)

  function Narrow(n: nat): octet
    requires n < 256
  {
    n as octet
  }

  /** The low eight bits of a number. */
  function Octet(n: nat): octet {
    Narrow(n % 256)
  }

  function Zeros(n: nat): (z: seq<octet>)
    ensures |z| == n
  {
    seq(n, _ => 0)
  }

  /** A number in eight octets, most significant first. */
  function Length64(n: nat): (s: seq<octet>)
    ensures |s| == 8
  {
    [Octet(n / 0x100_0000_0000_0000), Octet(n / 0x1_0000_0000_0000), Octet(n / 0x100_0000_0000),
     Octet(n / 0x1_0000_0000), Octet(n / 0x100_0000), Octet(n / 0x1_0000), Octet(n / 0x100), Octet(n)]
  }

  /** The least number of zero octets that brings `n` octets and the marker octet to 56 modulo 64. */
  function PadZeros(n: nat): (k: nat)
    ensures (n + k) % 64 == 55 && k < 64
  {
    var used := n % 64;
    assert n == n / 64 * 64 + used;
    if used < 56 then 55 - used else 119 - used
  }

  lemma PadAligned(n: nat, k: nat)
    requires (n + k) % 64 == 55
    ensures (n + 1 + k + 8) % 64 == 0
  {
  }

  /** The padded message of section 5.1.1, for a message of 8 * |m| < 2^64 bits. */
  function Pad(m: seq<octet>): (p: seq<octet>)
    requires |m| < 0x2000_0000_0000_0000
    ensures |p| % 64 == 0
  {
    var k := PadZeros(|m|);
    PadAligned(|m|, k);
    m + [0x80] + Zeros(k) + Length64(8 * |m|)
  }

  /** Octet `k` of a word, the leftmost being octet 0. */
  function WordOctet(w: word, k: nat): octet
    requires k < 4
  {
    ((w >> ((3 - k) * 8)) & 255) as octet
  }

  function WordOctets(w: word): (s: seq<octet>)
    ensures |s| == 4
  {
    [WordOctet(w, 0), WordOctet(w, 1), WordOctet(w, 2), WordOctet(w, 3)]
  }

  function Digest(h: Regs): (s: seq<octet>)
    ensures |s| == 20
  {
    WordOctets(h.a) + WordOctets(h.b) + WordOctets(h.c) + WordOctets(h.d) + WordOctets(h.e)
  }

  /** The hash of a whole message. */
  function Sha1(m: seq<octet>): seq<octet>
    requires |m| < 0x2000_0000_0000_0000
  {
    Digest(Absorb(H0, Pad(m)))
  }

  lemma AbsorbFirst(h: Regs, s: seq<octet>)
    requires |s| >= 64 && |s| % 64 == 0
    ensures Absorb(h, s) == Absorb(Compress(h, s[..64]), s[64..])
  {
  }

  lemma AbsorbNothing(h: Regs)
    ensures Absorb(h, []) == h
  {
  }

  lemma {:induction false} AbsorbNext(h: Regs, s: seq<octet>, p: nat)
    requires p % 64 == 0 && p + 64 <= |s|
    ensures Absorb(h, s[..p + 64]) == Compress(Absorb(h, s[..p]), s[p..p + 64])
    decreases p
  {
    hide Compress, Absorb;
    var longer, shorter := s[..p + 64], s[..p];
    AbsorbFirst(h, longer);
    if p == 0 {
      AbsorbNothing(h);
      AbsorbNothing(Compress(h, longer[..64]));
      assert longer[64..] == [] && shorter == [];
      assert longer[..64] == s[p..p + 64];
    } else {
      AbsorbFirst(h, shorter);
      AbsorbNext(Compress(h, s[..64]), s[64..], p - 64);
      assert longer[64..] == s[64..][..p] && shorter[64..] == s[64..][..p - 64];
      assert longer[..64] == s[..64] == shorter[..64];
      assert s[64..][p - 64..p] == s[p..p + 64];
    }
  }
}
