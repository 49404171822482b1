/** ISO base media boxes (ISO/IEC 14496-12, sections 4.2, 8.8.7 and 8.8.8) as fragmented MP4 uses them. */
module Fmp4Boxes {
  import opened Bytes

  const MAX_SAMPLES := 4096

  const MOOV := 0x6D6F_6F76
  const MOOF := 0x6D6F_6F66
  const MDAT := 0x6D64_6174
  const TRAF := 0x7472_6166
  const TFHD := 0x7466_6864
  const TRUN := 0x7472_756E

  datatype Box = Box(kind: nat, body: seq<byte>)

  /** The first box of a buffer and its total size; None when no header or no body fits in what is left. */
  function FirstBox(buf: seq<byte>): (r: Option<(Box, nat)>)
    ensures r.Some? ==> 8 <= r.value.1 <= |buf|
  {
    if |buf| < 8 || (Rd32(buf) == 1 && |buf| < 16) then None
    else
      var wide := Rd32(buf) == 1;
      var head := if wide then 16 else 8;
      var size: nat := if wide then Rd64(buf[8..]) else if Rd32(buf) == 0 then |buf| else Rd32(buf);
      if size < head || size > |buf| then None
      else Some((Box(Rd32(buf[4..]), buf[head..size]), size))
  }

  /** All boxes of a buffer, up to the first malformed one. */
  function Boxes(buf: seq<byte>): seq<Box>
    decreases |buf|
  {
    match FirstBox(buf)
    case None => []
    case Some((box, size)) => [box] + Boxes(buf[size..])
  }

  // ---- sample tables

  /** What a moof says about the samples that follow: their sizes and where the first one starts. */
  datatype Plan = Plan(sizes: seq<nat>, start: Option<nat>)

  const NO_PLAN := Plan([], None)

  /** The settings of one track fragment while its boxes are read. */
  datatype TrackRun = TrackRun(mine: bool, base: nat, size: nat, plan: Plan)

  function Signed32(n: nat): int { if n < 0x8000_0000 then n else n - 0x1_0000_0000 }

  function Wrap64(n: int): nat { n % 0x1_0000_0000_0000_0000 }

  function Clamp16(n: nat): nat { if n > 0xFFFF then 0xFFFF else n }

  /** One entry of a trun: the sample size and the offset behind it; None past the end of the box. */
  function RunEntry(p: seq<byte>, at: nat, flags: nat, size: nat): Option<(nat, nat)> {
    var a := at + (if Has(flags, 0x100) then 4 else 0);
    if Has(flags, 0x200) && a + 4 > |p| then None
    else
      var sz: nat := if Has(flags, 0x200) then Rd32(p[a..]) else size;
      var b: nat := a + (if Has(flags, 0x200) then 4 else 0)
                      + (if Has(flags, 0x400) then 4 else 0)
                      + (if Has(flags, 0x800) then 4 else 0);
      if b > |p| then None else Some((sz, b))
  }

  /** Entries of a trun from offset `at`: at most `count`, at most `room`, none past the end of the box. */
  function RunSizes(p: seq<byte>, at: nat, flags: nat, size: nat, count: nat, room: nat): (r: seq<nat>)
    ensures |r| <= count && |r| <= room
    ensures forall s :: s in r ==> s <= 0xFFFF
    decreases count
  {
    if count == 0 || room == 0 then []
    else match RunEntry(p, at, flags, size)
      case None => []
      case Some((sz, next)) => [Clamp16(sz)] + RunSizes(p, next, flags, size, count - 1, room - 1)
  }

  /** A tfhd selects the track, the base offset and the default sample size. */
  function TrackHeader(t: TrackRun, track: nat, p: seq<byte>): TrackRun
    requires |p| >= 8
  {
    var flags := Rd32(p) % 0x100_0000;
    var hasBase := Has(flags, 1) && 16 <= |p|;
    var at := 8 + (if hasBase then 8 else 0)
                + (if Has(flags, 2) then 4 else 0)
                + (if Has(flags, 8) then 4 else 0);
    t.(mine := track == 0 || Rd32(p[4..]) == track,
       base := if hasBase then Rd64(p[8..]) else t.base,
       size := if Has(flags, 0x10) && at + 4 <= |p| then Rd32(p[at..]) else t.size)
  }

  /** A trun appends its samples; the first data offset seen fixes the start. */
  function TrackSamples(t: TrackRun, p: seq<byte>): TrackRun
    requires |p| >= 8
  {
    var flags, count := Rd32(p) % 0x100_0000, Rd32(p[4..]);
    if Has(flags, 1) && 12 > |p| then t
    else
      var start := if Has(flags, 1) && t.plan.start.None?
                   then Some(Wrap64(t.base + Signed32(Rd32(p[8..])))) else t.plan.start;
      var at := 8 + (if Has(flags, 1) then 4 else 0) + (if Has(flags, 4) then 4 else 0);
      var room := if |t.plan.sizes| < MAX_SAMPLES then MAX_SAMPLES - |t.plan.sizes| else 0;
      t.(plan := Plan(t.plan.sizes + RunSizes(p, at, flags, t.size, count, room), start))
  }

  function TrackBox(t: TrackRun, track: nat, b: Box): TrackRun {
    if b.kind == TFHD && |b.body| >= 8 then TrackHeader(t, track, b.body)
    else if b.kind == TRUN && t.mine && |b.body| >= 8 then TrackSamples(t, b.body)
    else t
  }

  function TrackBoxes(t: TrackRun, track: nat, bs: seq<Box>): TrackRun
    decreases |bs|
  {
    if bs == [] then t else TrackBoxes(TrackBox(t, track, bs[0]), track, bs[1..])
  }

  function TrafPlan(track: nat, size: nat, moofStart: nat, plan: Plan, traf: seq<byte>): Plan {
    TrackBoxes(TrackRun(true, moofStart, size, plan), track, Boxes(traf)).plan
  }

  function MoofBoxes(track: nat, size: nat, moofStart: nat, plan: Plan, bs: seq<Box>): Plan
    decreases |bs|
  {
    if bs == [] then plan
    else
      var next := if bs[0].kind == TRAF then TrafPlan(track, size, moofStart, plan, bs[0].body) else plan;
      MoofBoxes(track, size, moofStart, next, bs[1..])
  }

  /** The plan a moof describes, given the track, its default sample size and the moof's own position. */
  function MoofPlan(track: nat, size: nat, moofStart: nat, moof: seq<byte>): Plan {
    MoofBoxes(track, size, moofStart, NO_PLAN, Boxes(moof))
  }

  // ---- the plan always fits the demuxer's table

  ghost predicate Fits(plan: Plan) {
    && |plan.sizes| <= MAX_SAMPLES
    && (forall s :: s in plan.sizes ==> s <= 0xFFFF)
    && (plan.start.Some? ==> plan.start.value < 0x1_0000_0000_0000_0000)
  }

  lemma {:induction false} TrackBoxesFit(t: TrackRun, track: nat, bs: seq<Box>)
    requires Fits(t.plan)
    ensures Fits(TrackBoxes(t, track, bs).plan)
    decreases |bs|
  {
    if bs != [] {
      TrackBoxesFit(TrackBox(t, track, bs[0]), track, bs[1..]);
    }
  }

  lemma {:induction false} MoofBoxesFit(track: nat, size: nat, moofStart: nat, plan: Plan, bs: seq<Box>)
    requires Fits(plan)
    ensures Fits(MoofBoxes(track, size, moofStart, plan, bs))
    decreases |bs|
  {
    if bs != [] {
      TrackBoxesFit(TrackRun(true, moofStart, size, plan), track, Boxes(bs[0].body));
      MoofBoxesFit(track, size, moofStart,
                   if bs[0].kind == TRAF then TrafPlan(track, size, moofStart, plan, bs[0].body) else plan, bs[1..]);
    }
  }

  // ---- writing boxes

  /** A box with an 8-byte header, or with the 16-byte header when `wide`. */
  function Encode(b: Box, wide: bool): (r: seq<byte>)
    requires Encodable(b, wide)
    ensures |r| == |b.body| + HeaderSize(wide)
  {
    HeaderCode(b, wide) + b.body
  }

  predicate Encodable(b: Box, wide: bool) {
    b.kind < 0x1_0000_0000 && |b.body| + 16 < (if wide then 0x1_0000_0000_0000_0000 else 0x1_0000_0000)
  }

  lemma Rd32Prefix(a: seq<byte>, rest: seq<byte>)
    requires |a| >= 4
    ensures Rd32(a + rest) == Rd32(a)
  {
  }

  function HeaderSize(wide: bool): nat { if wide then 16 else 8 }

  /** The header of a coded box. */
  function HeaderCode(b: Box, wide: bool): (h: seq<byte>)
    requires Encodable(b, wide)
    ensures |h| == HeaderSize(wide)
  {
    if wide then Be32(1) + Be32(b.kind) + Be64(|b.body| + 16) else Be32(|b.body| + 8) + Be32(b.kind)
  }

  lemma HeaderFields(b: Box, wide: bool, rest: seq<byte>)
    requires Encodable(b, wide)
    ensures var r := HeaderCode(b, wide) + rest;
            && Rd32(r) == (if wide then 1 else |b.body| + 8)
            && Rd32(r[4..]) == b.kind
            && (wide ==> Rd64(r[8..]) == |b.body| + 16)
  {
    var r := HeaderCode(b, wide) + rest;
    if wide {
      var size := Be64(|b.body| + 16);
      assert r[..4] == Be32(1) && r[4..][..4] == Be32(b.kind);
      assert r[8..][..4] == size[..4] && r[8..][4..][..4] == size[4..];
    } else {
      assert r[..4] == Be32(|b.body| + 8) && r[4..][..4] == Be32(b.kind);
    }
  }

  lemma FirstOfEncoded(b: Box, wide: bool, rest: seq<byte>)
    requires Encodable(b, wide)
    ensures FirstBox(Encode(b, wide) + rest) == Some((b, |Encode(b, wide)|))
    ensures Boxes(Encode(b, wide) + rest) == [b] + Boxes(rest)
  {
    hide HeaderCode;
    HeaderFields(b, wide, b.body + rest);
    var r := Encode(b, wide) + rest;
    assert r == HeaderCode(b, wide) + (b.body + rest);
    assert r[HeaderSize(wide)..|Encode(b, wide)|] == b.body && r[|Encode(b, wide)|..] == rest;
  }

  lemma BoxesOfOne(b: Box)
    requires Encodable(b, false)
    ensures Boxes(Encode(b, false)) == [b]
  {
    FirstOfEncoded(b, false, []);
    assert Encode(b, false) + [] == Encode(b, false);
  }
}
