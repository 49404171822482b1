/**
 * The fragmented MP4 demuxer as a function that takes one byte at a time: the simple form that the
 * demuxer class, which works on whole network reads, is proved to compute.
 */
module Fmp4Spec {
  import opened Bytes
  import opened Adts
  import opened Fmp4Boxes
  import opened Machine

  const MAX_META_BOX := 12288

  /** The remaining size that stands for "until the end of the segment". */
  const OPEN_ENDED := 0xFFFF_FFFF_FFFF_FFFF

  type Remain = n: nat | n <= OPEN_ENDED

  /** What survives a segment: the audio format (once a moov gave one), the track and its default sample size. */
  datatype Config = Config(format: Option<AudioFormat>, track: nat, size: nat)

  /** Reads a moov. The format of the result is None when no AAC track was found. */
  type MoovReader = (Config, seq<byte>) -> Config

  /** Progress through the samples of the current plan: sample index, its bytes seen, its bytes kept. */
  datatype Cursor = Cursor(idx: nat, fill: nat, kept: seq<byte>)

  const AT_START := Cursor(0, 0, [])

  datatype Phase =
    | Header(have: seq<byte>)
    | Collect(kind: nat, remain: Remain, start: nat, have: seq<byte>)
    | Skip(remain: Remain)
    | Media(remain: Remain)

  datatype State = State(cfg: Config, phase: Phase, pos: nat, plan: Plan, cur: Cursor)

  /** The sink calls of a run are its outputs. */
  type Outcome = Run<State, seq<byte>>

  /** The state fmp4_reset leaves: only the configuration survives. */
  function Reset(cfg: Config): State {
    State(cfg, Header([]), 0, NO_PLAN, AT_START)
  }

  // ---- one media byte

  /** Zero-length samples are passed only when a byte arrives. */
  function PastEmpty(sizes: seq<nat>, idx: nat): (r: nat)
    ensures idx <= r
    ensures r < |sizes| ==> sizes[r] > 0
    decreases |sizes| - idx
  {
    if idx < |sizes| && sizes[idx] == 0 then PastEmpty(sizes, idx + 1) else idx
  }

  function SampleByte(f: AudioFormat, sizes: seq<nat>, c: Cursor, b: byte): (Cursor, seq<seq<byte>>) {
    var idx := if c.fill == 0 then PastEmpty(sizes, c.idx) else c.idx;
    if idx >= |sizes| then (Cursor(idx, 0, []), [])
    else
      var sz := sizes[idx];
      var kept := if sz <= MAX_FRAME then c.kept + [b] else [];
      if c.fill + 1 < sz then (Cursor(idx, c.fill + 1, kept), [])
      else (Cursor(idx + 1, 0, []), if sz <= MAX_FRAME then [Frame(f, kept)] else [])
  }

  /** A cursor and the segment position it has reached. */
  datatype Place = Place(cur: Cursor, pos: nat)

  function MediaByte(f: AudioFormat, plan: Plan, p: Place, b: byte): Run<Place, seq<byte>> {
    if p.cur.idx >= |plan.sizes| || (plan.start.Some? && p.pos < plan.start.value) then
      Run(Place(p.cur, p.pos + 1), [], true)
    else
      var (cur, out) := SampleByte(f, plan.sizes, p.cur, b);
      Run(Place(cur, p.pos + 1), out, true)
  }

  function Sampler(f: AudioFormat, plan: Plan): Step<Place, byte, seq<byte>> {
    (p: Place, b: byte) => MediaByte(f, plan, p, b)
  }

  // ---- one byte of the segment

  predicate NeedsMore(h: seq<byte>) {
    |h| < 8 || (|h| < 16 && Rd32(h) == 1)
  }

  lemma NeedsMorePrefix(h: seq<byte>, b: byte)
    requires NeedsMore(h + [b])
    ensures NeedsMore(h)
  {
    if |h| >= 8 {
      assert (h + [b])[..4] == h[..4];
    }
  }

  /**
   * A complete header decides how the box body is treated, and a first mdat where the samples start if
   * no moof said so. An empty body is skipped at once. None: a size smaller than the header.
   */
  function OpenBox(pos: nat, plan: Plan, head: nat, size: nat, kind: nat): Option<(Phase, Plan)>
    requires size <= OPEN_ENDED
  {
    if size != 0 && size < head then None
    else
      var remain: Remain := if size == 0 then OPEN_ENDED else size - head;
      var phase := if remain == 0 then Header([])
                   else if (kind == MOOV || kind == MOOF) && remain <= MAX_META_BOX
                   then Collect(kind, remain, if pos >= head then pos - head else 0, [])
                   else if kind == MDAT then Media(remain) else Skip(remain);
      Some((phase, if kind == MDAT && plan.start.None? then plan.(start := Some(pos)) else plan))
  }

  /** The 8-byte header, or the 16-byte one that size 1 announces. */
  function ReadHeader(pos: nat, plan: Plan, h: seq<byte>): Option<(Phase, Plan)>
    requires !NeedsMore(h)
  {
    if Rd32(h) == 1 then OpenBox(pos, plan, 16, Rd64(h[8..]), Rd32(h[4..])) else OpenBox(pos, plan, 8, Rd32(h), Rd32(h[4..]))
  }

  /** Header bytes `h` have arrived. */
  function AfterHeader(s: State, h: seq<byte>): Outcome {
    if NeedsMore(h) then Run(s.(phase := Header(h)), [], true)
    else match ReadHeader(s.pos, s.plan, h)
      case None => Run(s.(phase := Header([])), [], false)
      case Some((phase, plan)) => Run(s.(phase := phase, plan := plan), [], true)
  }

  /** What a complete moov or moof changes: a moov the configuration, a moof the plan. */
  datatype Knowledge = Knowledge(cfg: Config, plan: Plan, cur: Cursor)

  function ReadMetaBox(rd: MoovReader, k: Knowledge, kind: nat, start: nat, body: seq<byte>): Knowledge {
    if kind == MOOV then k.(cfg := rd(k.cfg, body))
    else k.(plan := MoofPlan(k.cfg.track, k.cfg.size, start, body), cur := AT_START)
  }

  /** A moov without an AAC track is an error. */
  function CloseBox(rd: MoovReader, s: State, kind: nat, start: nat, body: seq<byte>): Outcome {
    var k := ReadMetaBox(rd, Knowledge(s.cfg, s.plan, s.cur), kind, start, body);
    Run(State(k.cfg, Header([]), s.pos, k.plan, k.cur), [], kind != MOOV || k.cfg.format.Some?)
  }

  function Less(remain: Remain, n: nat): Remain {
    if remain == OPEN_ENDED || remain < n then remain else remain - n
  }

  function DemuxByte(rd: MoovReader, s: State, b: byte): Outcome {
    match s.phase
    case Header(h) =>
      AfterHeader(s.(pos := s.pos + 1), h + [b])
    case Collect(kind, remain, start, have) =>
      var s' := s.(pos := s.pos + 1);
      if remain <= 1 then CloseBox(rd, s', kind, start, have + [b])
      else Run(s'.(phase := Collect(kind, remain - 1, start, have + [b])), [], true)
    case Skip(remain) =>
      var r := Less(remain, 1);
      Run(s.(pos := s.pos + 1, phase := if r == 0 then Header([]) else Skip(r)), [], true)
    case Media(remain) =>
      if s.cfg.format.None? then Run(s, [], false)
      else
        var m := MediaByte(s.cfg.format.value, s.plan, Place(s.cur, s.pos), b);
        var r := Less(remain, 1);
        Run(s.(pos := m.st.pos, cur := m.st.cur, phase := if r == 0 then Header([]) else Media(r)), m.out, true)
  }

  function Demuxer(rd: MoovReader): Step<State, byte, seq<byte>> {
    (s: State, b: byte) => DemuxByte(rd, s, b)
  }

  // ---- what a whole stretch of bytes does inside one phase

  lemma PhaseIsReplaced(s: State, phase: Phase, h: seq<byte>)
    ensures AfterHeader(s.(phase := phase), h) == AfterHeader(s, h)
  {
  }

  lemma StillHeader(s: State, h: seq<byte>)
    requires NeedsMore(h)
    ensures AfterHeader(s, h) == Run(s.(phase := Header(h)), [], true)
  {
  }

  lemma OutIsEmpty(s: State, h: seq<byte>)
    ensures AfterHeader(s, h).out == []
  {
  }

  lemma {:induction false} HeaderStretch(rd: MoovReader, s: State, d: seq<byte>)
    requires s.phase.Header? && d != [] && NeedsMore(s.phase.have + d[..|d| - 1])
    ensures Feed(Demuxer(rd), s, d) == AfterHeader(s.(pos := s.pos + |d|), s.phase.have + d)
    decreases |d|
  {
    hide Feed, Then, AfterHeader, NeedsMore;
    var last, have := |d| - 1, s.phase.have;
    FeedLast(Demuxer(rd), s, d);
    StillHeader(s.(pos := s.pos + last), have + d[..last]);
    if last > 0 {
      assert have + d[..last] == have + d[..last][..last - 1] + [d[last - 1]];
      NeedsMorePrefix(have + d[..last][..last - 1], d[last - 1]);
      HeaderStretch(rd, s, d[..last]);
    } else {
      assert d[..last] == [] && have + [] == have;
      FeedNone(Demuxer(rd), s);
    }
    assert have + d == have + d[..last] + [d[last]];
    PhaseIsReplaced(s.(pos := s.pos + |d|), Header(have + d[..last]), have + d);
    OutIsEmpty(s.(pos := s.pos + |d|), have + d);
    assert Feed(Demuxer(rd), s, d[..last]) == Run(s.(pos := s.pos + last, phase := Header(have + d[..last])), [], true);
  }

  lemma {:induction false} SkipStretch(rd: MoovReader, s: State, d: seq<byte>)
    requires s.phase.Skip? && 0 < |d| <= s.phase.remain
    ensures var r := Less(s.phase.remain, |d|);
            Feed(Demuxer(rd), s, d) ==
            Run(s.(pos := s.pos + |d|, phase := if r == 0 then Header([]) else Skip(r)), [], true)
    decreases |d|
  {
    hide Feed, Then;
    var last := |d| - 1;
    FeedLast(Demuxer(rd), s, d);
    if last > 0 {
      SkipStretch(rd, s, d[..last]);
    } else {
      assert d[..last] == [];
      FeedNone(Demuxer(rd), s);
    }
  }

  lemma {:induction false} CollectStretch(rd: MoovReader, s: State, d: seq<byte>)
    requires s.phase.Collect? && 0 < |d| <= s.phase.remain
    ensures var Collect(kind, remain, start, have) := s.phase;
            Feed(Demuxer(rd), s, d) ==
            if |d| < remain then
              Run(s.(pos := s.pos + |d|, phase := Collect(kind, remain - |d|, start, have + d)), [], true)
            else CloseBox(rd, s.(pos := s.pos + |d|), kind, start, have + d)
    decreases |d|
  {
    hide Feed, Then;
    var Collect(kind, remain, start, have) := s.phase;
    var last := |d| - 1;
    FeedLast(Demuxer(rd), s, d);
    if last > 0 {
      CollectStretch(rd, s, d[..last]);
    } else {
      assert d[..last] == [] && d == [d[last]];
      FeedNone(Demuxer(rd), s);
    }
    assert have + d[..last] + [d[last]] == have + d;
  }

  lemma {:induction false} MediaStretch(rd: MoovReader, s: State, d: seq<byte>)
    requires s.phase.Media? && 0 < |d| <= s.phase.remain && s.cfg.format.Some?
    ensures var m := Feed(Sampler(s.cfg.format.value, s.plan), Place(s.cur, s.pos), d);
            var r := Less(s.phase.remain, |d|);
            m.ok && m.st.pos == s.pos + |d| && Feed(Demuxer(rd), s, d) ==
            Run(s.(pos := m.st.pos, cur := m.st.cur, phase := if r == 0 then Header([]) else Media(r)), m.out, true)
    decreases |d|
  {
    hide Feed, Then, MediaByte;
    var last := |d| - 1;
    var sampler, p := Sampler(s.cfg.format.value, s.plan), Place(s.cur, s.pos);
    FeedLast(Demuxer(rd), s, d);
    FeedLast(sampler, p, d);
    if last > 0 {
      MediaStretch(rd, s, d[..last]);
    } else {
      assert d[..last] == [];
      FeedNone(sampler, p);
      FeedNone(Demuxer(rd), s);
    }
    MediaMoves(s.cfg.format.value, s.plan, Feed(sampler, p, d[..last]).st, d[last]);
  }

  lemma MediaMoves(f: AudioFormat, plan: Plan, p: Place, b: byte)
    ensures MediaByte(f, plan, p, b).ok && MediaByte(f, plan, p, b).st.pos == p.pos + 1
  {
  }

  // ---- what a whole stretch of bytes does inside the samples

  /** Bytes after the last sample, or before the first one, are passed over. */
  lemma {:induction false} PassOver(f: AudioFormat, plan: Plan, p: Place, d: seq<byte>)
    requires p.cur.idx >= |plan.sizes| || (plan.start.Some? && p.pos + |d| <= plan.start.value)
    ensures Feed(Sampler(f, plan), p, d) == Run(Place(p.cur, p.pos + |d|), [], true)
    decreases |d|
  {
    if d != [] {
      PassOver(f, plan, Place(p.cur, p.pos + 1), d[1..]);
    }
  }

  /** A zero-length sample at the cursor is passed as soon as there is a byte to look at. */
  lemma PassEmpty(f: AudioFormat, plan: Plan, p: Place, d: seq<byte>)
    requires d != [] && p.cur.idx < |plan.sizes| && plan.sizes[p.cur.idx] == 0
    requires p.cur.fill == 0 && p.cur.kept == []
    requires plan.start.Some? ==> plan.start.value <= p.pos
    ensures Feed(Sampler(f, plan), p, d) == Feed(Sampler(f, plan), Place(Cursor(p.cur.idx + 1, 0, []), p.pos), d)
  {
    var q := Place(Cursor(p.cur.idx + 1, 0, []), p.pos);
    assert PastEmpty(plan.sizes, p.cur.idx) == PastEmpty(plan.sizes, q.cur.idx);
    assert MediaByte(f, plan, p, d[0]) == MediaByte(f, plan, q, d[0]);
    assert Sampler(f, plan)(p, d[0]) == Sampler(f, plan)(q, d[0]);
  }

  /** Bytes that belong to the sample at the cursor. */
  lemma {:induction false} InsideSample(f: AudioFormat, plan: Plan, p: Place, d: seq<byte>)
    requires p.cur.idx < |plan.sizes| && 0 < |d| <= plan.sizes[p.cur.idx] - p.cur.fill
    requires plan.start.Some? ==> plan.start.value <= p.pos
    requires p.cur.fill == 0 || plan.sizes[p.cur.idx] > MAX_FRAME ==> p.cur.kept == []
    ensures var sz, c := plan.sizes[p.cur.idx], p.cur;
            var kept := if sz <= MAX_FRAME then c.kept + d else [];
            Feed(Sampler(f, plan), p, d) ==
            if c.fill + |d| < sz then Run(Place(Cursor(c.idx, c.fill + |d|, kept), p.pos + |d|), [], true)
            else Run(Place(Cursor(c.idx + 1, 0, []), p.pos + |d|),
                     if sz <= MAX_FRAME then [Frame(f, kept)] else [], true)
    decreases |d|
  {
    hide Feed, Then, Frame;
    var step, last := Sampler(f, plan), |d| - 1;
    FeedLast(step, p, d);
    if last > 0 {
      InsideSample(f, plan, p, d[..last]);
    } else {
      assert d[..last] == [] && d == [d[last]];
      assert p.cur.fill == 0 ==> p.cur.kept + d == d;
      FeedNone(step, p);
    }
    assert p.cur.kept + d[..last] + [d[last]] == p.cur.kept + d;
  }
}
