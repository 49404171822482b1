/**
 * Reading a moov: the first track with an AAC description, and the default sample size of its fragments
 * (ISO/IEC 14496-12, sections 8.3, 8.5 and 8.8; ISO/IEC 14496-1, section 7.2.6 for the descriptors).
 */
module Moov {
  import opened Bytes
  import opened Adts
  import opened AudioConfig
  import opened Fmp4Boxes
  import opened Fmp4Spec

  const TRAK := 0x7472_616B
  const TKHD := 0x746B_6864
  const MDIA := 0x6D64_6961
  const MINF := 0x6D69_6E66
  const STBL := 0x7374_626C
  const STSD := 0x7374_7364
  const MP4A := 0x6D70_3461
  const ESDS := 0x6573_6473
  const MVEX := 0x6D76_6578
  const TREX := 0x7472_6578

  /** The way from a trak to its sample descriptions. */
  const DESCRIPTIONS := [MDIA, MINF, STBL, STSD]

  /** Four bytes that stand behind a box, as the version 1 track header may be read past its end. */
  type Past = p: seq<byte> | |p| == 4 witness [0, 0, 0, 0]

  // ---- finding boxes

  function Find(bs: seq<Box>, kind: nat): Option<seq<byte>> {
    if bs == [] then None else if bs[0].kind == kind then Some(bs[0].body) else Find(bs[1..], kind)
  }

  function Follow(buf: seq<byte>, path: seq<nat>): Option<seq<byte>>
    decreases |path|
  {
    if path == [] then Some(buf)
    else match Find(Boxes(buf), path[0])
      case None => None
      case Some(body) => Follow(body, path[1..])
  }

  /** find_box: the first box of a kind. */
  method FindBox(buf: seq<byte>, kind: nat) returns (r: Option<seq<byte>>)
    ensures r == Find(Boxes(buf), kind)
  {
    hide FirstBox;
    var off := 0;
    assert buf[0..] == buf;
    while true
      invariant off <= |buf| && Find(Boxes(buf[off..]), kind) == Find(Boxes(buf), kind)
      decreases |buf| - off
    {
      var next := FirstBox(buf[off..]);
      if next.None? {
        return None;
      }
      if next.value.0.kind == kind {
        return Some(next.value.0.body);
      }
      ghost var here := off;
      off := off + next.value.1;
      assert buf[here..][next.value.1..] == buf[off..];
      assert Boxes(buf[here..])[1..] == Boxes(buf[off..]);
    }
  }

  method FollowPath(buf: seq<byte>, path: seq<nat>) returns (r: Option<seq<byte>>)
    ensures r == Follow(buf, path)
  {
    hide Boxes, Find;
    var d, here := 0, buf;
    assert path[0..] == path;
    while d < |path|
      invariant 0 <= d <= |path| && Follow(here, path[d..]) == Follow(buf, path)
    {
      var found := FindBox(here, path[d]);
      if found.None? {
        return None;
      }
      assert path[d..][1..] == path[d + 1..];
      here := found.value;
      d := d + 1;
    }
    return Some(here);
  }

  // ---- descriptors

  /** A descriptor length of at most `k` bytes, seven bits in each; also the position behind it. */
  function Length(p: seq<byte>, i: nat, k: nat, v: nat): Option<(nat, nat)>
    decreases k
  {
    if k == 0 || i >= |p| then None
    else
      var more: nat := v * 128 + p[i] % 128;
      if p[i] < 128 then Some((more, i + 1)) else Length(p, i + 1, k - 1, more)
  }

  /** desc_len */
  method DescLen(p: seq<byte>, i: nat) returns (r: Option<(nat, nat)>)
    ensures r == Length(p, i, 4, 0)
  {
    var at: nat, v: nat, k := i, 0, 0;
    while k < 4
      invariant 0 <= k <= 4 && Length(p, at, 4 - k, v) == Length(p, i, 4, 0)
    {
      if at >= |p| {
        return None;
      }
      var b := p[at];
      at := at + 1;
      v := v * 128 + b % 128;
      if b < 128 {
        return Some((v, at));
      }
      k := k + 1;
    }
    return None;
  }

  /** The header of a descriptor: its announced length and where its content begins. */
  function Descriptor(p: seq<byte>, i: nat, tag: nat): Option<(nat, nat)> {
    if i < |p| && p[i] == tag then Length(p, i + 1, 4, 0) else None
  }

  /** Behind the fixed and the optional fields of an elementary stream descriptor. */
  function StreamFields(p: seq<byte>, i: nat): Option<nat> {
    if i + 3 > |p| then None
    else
      var flags: nat, a := p[i + 2], i + 3;
      var b := if Has(flags, 0x80) then a + 2 else a;
      if Has(flags, 0x40) && b >= |p| then None
      else
        var c: nat := if Has(flags, 0x40) then b + 1 + p[b] else b;
        Some(if Has(flags, 0x20) then c + 2 else c)
  }

  /** The bytes of the audio configuration: a decoder specific descriptor in a decoder configuration in a stream. */
  function AudioBytes(p: seq<byte>): Option<seq<byte>> {
    if |p| < 8 then None
    else match Descriptor(p, 4, 3)
      case None => None
      case Some((_, stream)) =>
        match StreamFields(p, stream)
        case None => None
        case Some(at) =>
          match Descriptor(p, at, 4)
          case None => None
          case Some((_, decoder)) =>
            match Descriptor(p, decoder + 13, 5)
            case None => None
            case Some((n, asc)) => if asc + n > |p| then None else Some(p[asc..asc + n])
  }

  function EsdsFormat(p: seq<byte>, chan: nat): Option<AudioFormat> {
    match AudioBytes(p) case None => None case Some(asc) => AscFormat(asc, chan)
  }

  method ReadStreamFields(p: seq<byte>, i: nat) returns (r: Option<nat>)
    ensures r == StreamFields(p, i)
  {
    if i + 3 > |p| {
      return None;
    }
    var flags: nat, at := p[i + 2], i + 3;
    if Has(flags, 0x80) {
      at := at + 2;
    }
    if Has(flags, 0x40) {
      if at >= |p| {
        return None;
      }
      at := at + 1 + p[at];
    }
    if Has(flags, 0x20) {
      at := at + 2;
    }
    return Some(at);
  }

  /** parse_esds */
  method ParseEsds(p: seq<byte>, chan: nat) returns (r: Option<AudioFormat>)
    ensures r == EsdsFormat(p, chan)
  {
    hide Length, StreamFields, AscFormat;
    if |p| < 8 || p[4] != 3 {
      return None;
    }
    var stream := DescLen(p, 5);
    if stream.None? {
      return None;
    }
    var at := ReadStreamFields(p, stream.value.1);
    if at.None? || at.value >= |p| || p[at.value] != 4 {
      return None;
    }
    var decoder := DescLen(p, at.value + 1);
    if decoder.None? {
      return None;
    }
    var i := decoder.value.1 + 13;
    if i >= |p| || p[i] != 5 {
      return None;
    }
    var audio := DescLen(p, i + 1);
    if audio.None? || audio.value.1 + audio.value.0 > |p| {
      return None;
    }
    r := ParseAsc(p[audio.value.1..audio.value.1 + audio.value.0], chan);
  }

  // ---- tracks

  function Rd16(b: seq<byte>): nat
    requires |b| >= 2
  {
    0x100 * (b[0] as int) + b[1] as int
  }

  /** The track number; that of a version 1 header lies at 20, and only 20 bytes are known to be there. */
  function TrackId(past: Past, tkhd: seq<byte>): (id: nat)
    requires |tkhd| >= 20
    ensures id < 0x1_0000_0000
  {
    if tkhd[0] == 1 then Rd32(tkhd[20..] + past) else Rd32(tkhd[12..])
  }

  /** The format in the first sample description. */
  function SoundFormat(stsd: seq<byte>): Option<AudioFormat> {
    if |stsd| < 8 then None
    else match FirstBox(stsd[8..])
      case None => None
      case Some((entry, _)) =>
        if entry.kind != MP4A || |entry.body| < 28 then None
        else match Find(Boxes(entry.body[28..]), ESDS)
          case None => None
          case Some(esds) => EsdsFormat(esds, Rd16(entry.body[16..]))
  }

  /** The format and the number of an AAC track. */
  function TrackOf(past: Past, trak: seq<byte>): Option<(AudioFormat, nat)> {
    match Find(Boxes(trak), TKHD)
    case None => None
    case Some(tkhd) =>
      if |tkhd| < 20 then None
      else match Follow(trak, DESCRIPTIONS)
        case None => None
        case Some(stsd) =>
          match SoundFormat(stsd)
          case None => None
          case Some(f) => Some((f, TrackId(past, tkhd)))
  }

  /** parse_trak */
  method ParseTrak(past: Past, trak: seq<byte>) returns (r: Option<(AudioFormat, nat)>)
    ensures r == TrackOf(past, trak)
  {
    hide Boxes, FirstBox, Find, Follow, EsdsFormat;
    var tkhd := FindBox(trak, TKHD);
    if tkhd.None? || |tkhd.value| < 20 {
      return None;
    }
    var id := if tkhd.value[0] == 1 then Rd32(tkhd.value[20..] + past) else Rd32(tkhd.value[12..]);
    var stsd := FollowPath(trak, DESCRIPTIONS);
    if stsd.None? || |stsd.value| < 8 {
      return None;
    }
    var first := FirstBox(stsd.value[8..]);
    if first.None? || first.value.0.kind != MP4A || |first.value.0.body| < 28 {
      return None;
    }
    var e := first.value.0.body;
    var esds := FindBox(e[28..], ESDS);
    if esds.None? {
      return None;
    }
    var f := ParseEsds(esds.value, Rd16(e[16..]));
    if f.None? {
      return None;
    }
    return Some((f.value, id));
  }

  // ---- the whole moov

  /** A trex gives the default sample size of its track, or of any track while none is known. */
  function TrexSize(track: nat, size: nat, b: Box): nat {
    if b.kind == TREX && |b.body| >= 24 && (track == 0 || Rd32(b.body[4..]) == track) then Rd32(b.body[16..]) else size
  }

  function TrexSizes(track: nat, size: nat, bs: seq<Box>): nat
    decreases |bs|
  {
    if bs == [] then size else TrexSizes(track, TrexSize(track, size, bs[0]), bs[1..])
  }

  function MoovBox(past: Past, cfg: Config, b: Box): Config {
    if b.kind == TRAK && cfg.format.None? then
      match TrackOf(past, b.body) case None => cfg case Some((f, id)) => Config(Some(f), id, cfg.size)
    else if b.kind == MVEX then cfg.(size := TrexSizes(cfg.track, cfg.size, Boxes(b.body)))
    else cfg
  }

  function MoovConfig(past: Past, cfg: Config, bs: seq<Box>): Config
    decreases |bs|
  {
    if bs == [] then cfg else MoovConfig(past, MoovBox(past, cfg, bs[0]), bs[1..])
  }

  /** The old format and default size are forgotten; the old track number stays until a track is found. */
  function ReadMoov(past: Past, cfg: Config, moov: seq<byte>): Config {
    MoovConfig(past, Config(None, cfg.track, 0), Boxes(moov))
  }

  function Reader(past: Past): MoovReader {
    (cfg: Config, moov: seq<byte>) => ReadMoov(past, cfg, moov)
  }

  // ---- what a moov means

  /** The first AAC track. */
  function FirstTrack(past: Past, bs: seq<Box>): Option<(AudioFormat, nat)>
    decreases |bs|
  {
    if bs == [] then None
    else if bs[0].kind == TRAK && TrackOf(past, bs[0].body).Some? then TrackOf(past, bs[0].body)
    else FirstTrack(past, bs[1..])
  }

  lemma {:induction false} TrackStays(past: Past, cfg: Config, bs: seq<Box>)
    requires cfg.format.Some?
    ensures var c := MoovConfig(past, cfg, bs); c.format == cfg.format && c.track == cfg.track
    decreases |bs|
  {
    hide TrackOf, Boxes, TrexSizes;
    if bs != [] {
      TrackStays(past, MoovBox(past, cfg, bs[0]), bs[1..]);
    }
  }

  /** Whatever else a moov holds, format and track number are those of its first AAC track. */
  lemma {:induction false} TrackExact(past: Past, cfg: Config, bs: seq<Box>)
    requires cfg.format.None?
    ensures
      var c := MoovConfig(past, cfg, bs);
      match FirstTrack(past, bs)
      case None => c.format == None && c.track == cfg.track
      case Some((f, id)) => c.format == Some(f) && c.track == id
    decreases |bs|
  {
    hide TrackOf, Boxes, TrexSizes;
    if bs != [] {
      var next := MoovBox(past, cfg, bs[0]);
      if next.format.Some? {
        TrackStays(past, next, bs[1..]);
      } else {
        TrackExact(past, next, bs[1..]);
      }
    }
  }

  /** No mvex stands in front of the first AAC track. */
  predicate TrackFirst(past: Past, bs: seq<Box>)
    decreases |bs|
  {
    bs == [] || (bs[0].kind == TRAK && TrackOf(past, bs[0].body).Some?)
    || (bs[0].kind != MVEX && TrackFirst(past, bs[1..]))
  }

  /** Then nothing of the old configuration survives a moov with an AAC track. */
  lemma {:induction false} OldForgotten(past: Past, a: Config, b: Config, bs: seq<Box>)
    requires a.format == b.format == None && a.size == b.size
    requires TrackFirst(past, bs) && FirstTrack(past, bs).Some?
    ensures MoovConfig(past, a, bs) == MoovConfig(past, b, bs)
    decreases |bs|
  {
    hide TrackOf, Boxes, TrexSizes;
    if MoovBox(past, a, bs[0]).format.None? {
      OldForgotten(past, a, b, bs[1..]);
    }
  }

  lemma ForgetsTheOld(past: Past, a: Config, b: Config, moov: seq<byte>)
    requires TrackFirst(past, Boxes(moov)) && FirstTrack(past, Boxes(moov)).Some?
    ensures Reader(past)(a, moov) == Reader(past)(b, moov)
  {
    OldForgotten(past, Config(None, a.track, 0), Config(None, b.track, 0), Boxes(moov));
  }

  lemma {:induction false} ConfigSplit(past: Past, cfg: Config, a: seq<Box>, b: seq<Box>)
    ensures MoovConfig(past, cfg, a + b) == MoovConfig(past, MoovConfig(past, cfg, a), b)
    decreases |a|
  {
    hide MoovBox;
    if a == [] {
      assert a + b == b;
    } else {
      assert (a + b)[1..] == a[1..] + b;
      ConfigSplit(past, MoovBox(past, cfg, a[0]), a[1..], b);
    }
  }

  lemma {:induction false} SizeStays(past: Past, cfg: Config, bs: seq<Box>)
    requires Find(bs, MVEX).None?
    ensures MoovConfig(past, cfg, bs).size == cfg.size
    decreases |bs|
  {
    hide TrackOf, Boxes, TrexSizes;
    if bs != [] {
      SizeStays(past, MoovBox(past, cfg, bs[0]), bs[1..]);
    }
  }

  // ---- the default sample size

  /** An mvex with the default sample size `n` for one track. */
  predicate Defaults(b: Box, id: nat, n: nat) {
    && b.kind == MVEX && |Boxes(b.body)| == 1
    && var t := Boxes(b.body)[0];
       t.kind == TREX && |t.body| >= 24 && Rd32(t.body[4..]) == id && Rd32(t.body[16..]) == n
  }

  lemma MvexBox(past: Past, cfg: Config, b: Box, id: nat, n: nat)
    requires Defaults(b, id, n)
    ensures MoovBox(past, cfg, b) == if cfg.track == 0 || cfg.track == id then cfg.(size := n) else cfg
  {
    hide TrackOf, Boxes;
    var bs := Boxes(b.body);
    assert bs[1..] == [];
    assert TrexSizes(cfg.track, TrexSize(cfg.track, cfg.size, bs[0]), bs[1..]) == TrexSize(cfg.track, cfg.size, bs[0]);
  }

  lemma {:induction false} FirstTrackSplit(past: Past, a: seq<Box>, b: seq<Box>)
    ensures FirstTrack(past, a + b) == if FirstTrack(past, a).Some? then FirstTrack(past, a) else FirstTrack(past, b)
    decreases |a|
  {
    hide TrackOf;
    if a == [] {
      assert a + b == b;
    } else {
      assert (a + b)[1..] == a[1..] + b;
      FirstTrackSplit(past, a[1..], b);
    }
  }

  /**
   * The default size of the track is adopted exactly if its mvex stands behind the track, or the old track number is
   * absent or the same: an mvex in front of the track is read with the track number of the previous moov.
   */
  lemma DefaultSizeExact(past: Past, was: Config, pre: seq<Box>, mvex: Box, post: seq<Box>, f: AudioFormat, id: nat, n: nat)
    requires Find(pre, MVEX).None? && Find(post, MVEX).None? && Defaults(mvex, id, n) && n > 0
    requires FirstTrack(past, pre + [mvex] + post) == Some((f, id))
    ensures
      var c := MoovConfig(past, Config(None, was.track, 0), pre + [mvex] + post);
      && c.format == Some(f) && c.track == id
      && (c.size == n <==> FirstTrack(past, pre).Some? || was.track in {0, id})
      && (c.size != n ==> c.size == 0)
  {
    hide TrackOf, Boxes, MoovBox, Defaults, MoovConfig, FirstTrack, Find;
    var c0 := Config(None, was.track, 0);
    var c1 := MoovConfig(past, c0, pre);
    var c2 := MoovBox(past, c1, mvex);
    ConfigSplit(past, c0, pre + [mvex], post);
    ConfigSplit(past, c0, pre, [mvex]);
    OneBox(past, c1, mvex);
    TrackExact(past, c0, pre + [mvex] + post);
    TrackExact(past, c0, pre);
    SizeStays(past, c0, pre);
    SizeStays(past, c2, post);
    MvexBox(past, c1, mvex, id, n);
    FirstTrackSplit(past, pre, [mvex] + post);
    assert pre + ([mvex] + post) == pre + [mvex] + post;
  }

  lemma OneBox(past: Past, cfg: Config, b: Box)
    ensures MoovConfig(past, cfg, [b]) == MoovBox(past, cfg, b)
  {
    hide MoovBox;
    assert [b][1..] == [];
    assert MoovConfig(past, MoovBox(past, cfg, b), []) == MoovBox(past, cfg, b);
  }
}
