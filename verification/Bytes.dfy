/** Bytes, big-endian numbers and the small sequence vocabulary shared by every module. */
module Bytes {
  type byte = x: int | 0 <= x < 0x100

  datatype Option<+T> = None | Some(value: T)

  /** Reads a 32-bit big-endian number. */
  function Rd32(b: seq<byte>): (v: nat)
    requires |b| >= 4
    ensures v < 0x1_0000_0000
  {
    0x100_0000 * (b[0] as int) + 0x1_0000 * (b[1] as int) + 0x100 * (b[2] as int) + b[3] as int
  }

  /** Reads a 64-bit big-endian number. */
  function Rd64(b: seq<byte>): (v: nat)
    requires |b| >= 8
    ensures v < 0x1_0000_0000_0000_0000
  {
    Rd32(b) * 0x1_0000_0000 + Rd32(b[4..])
  }

  /** Tests the flag bit whose weight is `weight`. */
  predicate Has(flags: nat, weight: nat)
    requires weight > 0
  {
    flags / weight % 2 == 1
  }

  function Be32(n: nat): (b: seq<byte>)
    requires n < 0x1_0000_0000
    ensures |b| == 4 && Rd32(b) == n
  {
    var high, low := n / 0x1_0000, n % 0x1_0000;
    [high / 0x100, high % 0x100, low / 0x100, low % 0x100]
  }

  function Be64(n: nat): (b: seq<byte>)
    requires n < 0x1_0000_0000_0000_0000
    ensures |b| == 8 && Rd64(b) == n
  {
    var hi, lo := Be32(n / 0x1_0000_0000), Be32(n % 0x1_0000_0000);
    assert (hi + lo)[4..] == lo;
    hi + lo
  }

  /** `f` with the items from `at` on replaced by `data`. */
  function Splice<T>(f: seq<T>, at: nat, data: seq<T>): (r: seq<T>)
    requires at + |data| <= |f|
    ensures |r| == |f|
  {
    f[..at] + data + f[at + |data|..]
  }

  function Flatten<T>(xs: seq<seq<T>>): (r: seq<T>)
  {
    if xs == [] then [] else xs[0] + Flatten(xs[1..])
  }

  lemma {:induction false} FlattenConcat<T>(xs: seq<seq<T>>, ys: seq<seq<T>>)
    ensures Flatten(xs + ys) == Flatten(xs) + Flatten(ys)
  {
    if xs == [] {
      assert xs + ys == ys;
    } else {
      assert (xs + ys)[1..] == xs[1..] + ys;
      FlattenConcat(xs[1..], ys);
    }
  }

  lemma FlattenFirst<T>(xs: seq<seq<T>>)
    requires xs != []
    ensures Flatten(xs) == xs[0] + Flatten(xs[1..])
  {
  }

  lemma FlattenNone<T>()
    ensures Flatten<T>([]) == []
  {
  }

  lemma FlattenOne<T>(x: seq<T>)
    ensures Flatten([x]) == x
  {
    assert [x][1..] == [];
  }

  /** memcpy: overwrites `dst[at..at + |src|]`. */
  method Copy<T>(dst: array<T>, at: nat, src: seq<T>)
    requires at + |src| <= dst.Length
    modifies dst
    ensures dst[..at] == old(dst[..at])
    ensures dst[at..at + |src|] == src
    ensures dst[at + |src|..] == old(dst[at + |src|..])
  {
    var i := 0;
    while i < |src|
      invariant 0 <= i <= |src|
      invariant dst[..at] == old(dst[..at])
      invariant forall j :: 0 <= j < i ==> dst[at + j] == src[j]
      invariant dst[at + |src|..] == old(dst[at + |src|..])
    {
      dst[at + i] := src[i];
      i := i + 1;
    }
  }
}
