/**
 * What the fragmented MP4 demuxer is for: samples are the byte ranges the moof announces, and demuxing
 * a muxed stream gives back its samples.
 */
module Fmp4Theorems {
  import opened Bytes
  import opened Machine
  import opened Adts
  import opened Fmp4Boxes
  import opened Fmp4Spec

  // ---- samples as byte ranges of the segment

  /** Where sample `i` starts, relative to the first one. */
  function Offset(sizes: seq<nat>, i: nat): nat
    requires i <= |sizes|
  {
    if i == 0 then 0 else Offset(sizes, i - 1) + sizes[i - 1]
  }

  lemma {:induction false} OffsetMonotonic(sizes: seq<nat>, i: nat, j: nat)
    requires i <= j <= |sizes|
    ensures Offset(sizes, i) <= Offset(sizes, j)
  {
    if i < j {
      OffsetMonotonic(sizes, i, j - 1);
    }
  }

  /** The plain specification: sample `i` is `seg[start + s0 + .. + s(i-1)..][..si]`, framed if it fits ADTS. */
  function Samples(f: AudioFormat, seg: seq<byte>, start: nat, sizes: seq<nat>, i: nat): seq<seq<byte>>
    requires i <= |sizes| && start + Offset(sizes, |sizes|) <= |seg|
    decreases |sizes| - i
  {
    if i == |sizes| then []
    else
      OffsetMonotonic(sizes, i + 1, |sizes|);
      var sample := seg[start + Offset(sizes, i)..start + Offset(sizes, i + 1)];
      (if 1 <= sizes[i] <= MAX_FRAME then [Frame(f, sample)] else []) + Samples(f, seg, start, sizes, i + 1)
  }

  function FrameIfFits(f: AudioFormat, sample: seq<byte>): seq<seq<byte>> {
    if 1 <= |sample| <= MAX_FRAME then [Frame(f, sample)] else []
  }

  /** One whole sample at the cursor. */
  lemma SampleTurn(f: AudioFormat, plan: Plan, i: nat, pos: nat, data: seq<byte>)
    requires i < |plan.sizes| && plan.sizes[i] <= |data| && data != []
    requires plan.start.Some? ==> plan.start.value <= pos
    ensures var n, r := plan.sizes[i], Feed(Sampler(f, plan), Place(Cursor(i, 0, []), pos), data);
            var next := Feed(Sampler(f, plan), Place(Cursor(i + 1, 0, []), pos + n), data[n..]);
            r == Run(next.st, FrameIfFits(f, data[..n]) + next.out, next.ok)
  {
    hide Feed, Then, Frame, Sampler;
    var n, here := plan.sizes[i], Place(Cursor(i, 0, []), pos);
    var later := Place(Cursor(i + 1, 0, []), pos + n);
    assert data == data[..n] + data[n..];
    if n == 0 {
      PassEmpty(f, plan, here, data);
      var o := Feed(Sampler(f, plan), here, data).out;
      assert [] + o == o && data[0..] == data;
    } else {
      InsideSample(f, plan, here, data[..n]);
      assert [] + data[..n] == data[..n];
      FeedThen(Sampler(f, plan), here, data[..n], Run(later, FrameIfFits(f, data[..n]), true), data[n..]);
    }
  }

  lemma SamplesStep(f: AudioFormat, seg: seq<byte>, start: nat, sizes: seq<nat>, i: nat)
    requires i < |sizes| && start + Offset(sizes, |sizes|) <= |seg|
    ensures Offset(sizes, i) + sizes[i] == Offset(sizes, i + 1) <= Offset(sizes, |sizes|)
    ensures var pos := start + Offset(sizes, i);
            Samples(f, seg, start, sizes, i) == FrameIfFits(f, seg[pos..pos + sizes[i]]) + Samples(f, seg, start, sizes, i + 1)
  {
    OffsetMonotonic(sizes, i + 1, |sizes|);
  }

  /** From a cursor at the start of sample `i`. */
  lemma {:induction false} ExtractFrom(f: AudioFormat, plan: Plan, start: nat, seg: seq<byte>, end: nat, i: nat)
    requires plan.start == Some(start) && i <= |plan.sizes|
    requires start + Offset(plan.sizes, |plan.sizes|) <= end <= |seg|
    ensures Offset(plan.sizes, i) <= Offset(plan.sizes, |plan.sizes|)
    ensures var pos := start + Offset(plan.sizes, i);
            Feed(Sampler(f, plan), Place(Cursor(i, 0, []), pos), seg[pos..end]).out == Samples(f, seg, start, plan.sizes, i)
    decreases |plan.sizes| - i
  {
    hide Feed, Then, Sampler, Frame;
    OffsetMonotonic(plan.sizes, i, |plan.sizes|);
    var pos := start + Offset(plan.sizes, i);
    if i == |plan.sizes| {
      PassOver(f, plan, Place(Cursor(i, 0, []), pos), seg[pos..end]);
    } else {
      ExtractFrom(f, plan, start, seg, end, i + 1);
      SamplesStep(f, seg, start, plan.sizes, i);
      var n := plan.sizes[i];
      if pos < end {
        SampleTurn(f, plan, i, pos, seg[pos..end]);
        assert seg[pos..end][..n] == seg[pos..pos + n] && seg[pos..end][n..] == seg[pos + n..end];
      } else {
        assert seg[pos..end] == seg[pos + n..end] == [];
        FeedNone(Sampler(f, plan), Place(Cursor(i, 0, []), pos));
        FeedNone(Sampler(f, plan), Place(Cursor(i + 1, 0, []), pos));
      }
    }
  }

  lemma Joins(seg: seq<byte>, a: nat, b: nat, c: nat)
    requires a <= b <= c <= |seg|
    ensures seg[a..c] == seg[a..b] + seg[b..c]
  {
  }

  /** An mdat payload `seg[pos..end]` that covers the planned samples yields exactly them. */
  lemma Extract(f: AudioFormat, plan: Plan, start: nat, seg: seq<byte>, pos: nat, end: nat)
    requires plan.start == Some(start) && pos <= start
    requires start + Offset(plan.sizes, |plan.sizes|) <= end <= |seg|
    ensures Feed(Sampler(f, plan), Place(AT_START, pos), seg[pos..end]).out == Samples(f, seg, start, plan.sizes, 0)
  {
    ExtractFirst(f, plan, start, seg, end);
    hide *;
    Joins(seg, pos, start, end);
    Skipped(f, plan, start, pos, seg[pos..start], seg[start..end]);
  }

  lemma ExtractFirst(f: AudioFormat, plan: Plan, start: nat, seg: seq<byte>, end: nat)
    requires plan.start == Some(start) && start + Offset(plan.sizes, |plan.sizes|) <= end <= |seg|
    ensures start <= end
    ensures Feed(Sampler(f, plan), Place(AT_START, start), seg[start..end]).out == Samples(f, seg, start, plan.sizes, 0)
  {
    hide Feed, Sampler, Samples;
    ExtractFrom(f, plan, start, seg, end, 0);
  }

  /** What stands in front of the samples is passed over. */
  lemma Skipped(f: AudioFormat, plan: Plan, start: nat, pos: nat, before: seq<byte>, payload: seq<byte>)
    requires plan.start == Some(start) && pos + |before| == start
    ensures
      Feed(Sampler(f, plan), Place(AT_START, pos), before + payload)
      == Feed(Sampler(f, plan), Place(AT_START, start), payload)
  {
    hide *;
    PassOver(f, plan, Place(AT_START, pos), before);
    FeedQuiet(Sampler(f, plan), Place(AT_START, pos), before, Place(AT_START, start), payload);
  }

  lemma {:induction false} SamplerNeverFails(f: AudioFormat, plan: Plan, p: Place, d: seq<byte>)
    ensures var r := Feed(Sampler(f, plan), p, d); r.ok && r.st.pos == p.pos + |d|
    decreases |d|
  {
    if d != [] {
      SamplerNeverFails(f, plan, Sampler(f, plan)(p, d[0]).st, d[1..]);
    }
  }

  // ---- whole boxes

  lemma HeaderOf(b: Box, wide: bool, pos: nat, plan: Plan)
    requires Encodable(b, wide)
    ensures var h := HeaderCode(b, wide);
            && NeedsMore(h[..|h| - 1]) && !NeedsMore(h)
            && ReadHeader(pos, plan, h) == OpenBox(pos, plan, |h|, |b.body| + |h|, b.kind)
  {
    hide HeaderCode, OpenBox;
    var h := HeaderCode(b, wide);
    HeaderFields(b, wide, []);
    assert h + [] == h;
    assert wide ==> h[..15][..4] == h[..4];
  }

  /** The state behind a box header. */
  function Opened(s: State, b: Box, wide: bool): State
    requires Encodable(b, wide)
  {
    var n := HeaderSize(wide);
    var (phase, plan) := OpenBox(s.pos + n, s.plan, n, |b.body| + n, b.kind).value;
    State(s.cfg, phase, s.pos + n, plan, s.cur)
  }

  lemma OpenedByHeader(s: State, b: Box, wide: bool)
    requires s.phase == Header([]) && Encodable(b, wide)
    ensures AfterHeader(s.(pos := s.pos + HeaderSize(wide)), HeaderCode(b, wide))
            == Run(Opened(s, b, wide), [], true)
  {
    hide HeaderCode;
    HeaderOf(b, wide, s.pos + HeaderSize(wide), s.plan);
  }

  lemma FeedHeader(rd: MoovReader, s: State, b: Box, wide: bool)
    requires s.phase == Header([]) && Encodable(b, wide)
    ensures Feed(Demuxer(rd), s, HeaderCode(b, wide)) == Run(Opened(s, b, wide), [], true)
  {
    hide Feed, Then, HeaderCode, AfterHeader, Opened;
    var h := HeaderCode(b, wide);
    assert NeedsMore(h[..|h| - 1]) by {
      HeaderOf(b, wide, 0, NO_PLAN);
    }
    assert [] + h == h && [] + h[..|h| - 1] == h[..|h| - 1];
    HeaderStretch(rd, s, h);
    OpenedByHeader(s, b, wide);
  }

  /** A box from its first header byte: the header is read, then the body is fed. */
  lemma FeedBox(rd: MoovReader, s: State, b: Box, wide: bool)
    requires s.phase == Header([]) && Encodable(b, wide)
    ensures Feed(Demuxer(rd), s, Encode(b, wide)) == Feed(Demuxer(rd), Opened(s, b, wide), b.body)
  {
    hide Feed, Then, HeaderCode, OpenBox;
    FeedHeader(rd, s, b, wide);
    FeedQuiet(Demuxer(rd), s, HeaderCode(b, wide), Opened(s, b, wide), b.body);
  }

  // ---- segments made of fragments

  /** Boxes the demuxer steps over: neither media nor a moov or moof it has room for. */
  predicate Ignored(b: Box) {
    b.kind != MDAT && (b.kind == MOOV || b.kind == MOOF ==> b.body == [] || |b.body| > MAX_META_BOX)
  }

  /** A box in its coded form. */
  datatype Item = Item(box: Box, wide: bool)

  function Code(it: Item): (r: seq<byte>)
    requires Encodable(it.box, it.wide)
  {
    Encode(it.box, it.wide)
  }

  predicate AllIgnored(items: seq<Item>) {
    forall it :: it in items ==> Encodable(it.box, it.wide) && Ignored(it.box)
  }

  function Codes(items: seq<Item>): seq<byte>
    requires AllIgnored(items)
  {
    if items == [] then [] else Code(items[0]) + Codes(items[1..])
  }

  lemma IgnoredBox(rd: MoovReader, s: State, it: Item)
    requires s.phase == Header([]) && Encodable(it.box, it.wide) && Ignored(it.box)
    ensures Feed(Demuxer(rd), s, Code(it)) == Run(s.(pos := s.pos + |Code(it)|), [], true)
  {
    hide Feed, Then;
    FeedBox(rd, s, it.box, it.wide);
    if it.box.body != [] {
      SkipStretch(rd, Opened(s, it.box, it.wide), it.box.body);
    } else {
      FeedNone(Demuxer(rd), Opened(s, it.box, it.wide));
    }
  }

  lemma {:induction false} IgnoredBoxes(rd: MoovReader, s: State, items: seq<Item>)
    requires s.phase == Header([]) && AllIgnored(items)
    ensures Feed(Demuxer(rd), s, Codes(items)) == Run(s.(pos := s.pos + |Codes(items)|), [], true)
    decreases |items|
  {
    hide Feed, Then, Demuxer, Code, Encodable, Ignored;
    if items != [] {
      var next := s.(pos := s.pos + |Code(items[0])|);
      IgnoredBox(rd, s, items[0]);
      IgnoredBoxes(rd, next, items[1..]);
      FeedQuiet(Demuxer(rd), s, Code(items[0]), next, Codes(items[1..]));
    } else {
      FeedNone(Demuxer(rd), s);
    }
  }

  /** A moof and the mdat it describes, with ignored boxes in front of either. */
  datatype Fragment = Fragment(before: seq<Item>, moof: seq<byte>, moofWide: bool, between: seq<Item>,
                               media: seq<byte>, mediaWide: bool)

  predicate HeadOk(g: Fragment) {
    && AllIgnored(g.before) && AllIgnored(g.between)
    && 0 < |g.moof| <= MAX_META_BOX && Encodable(Box(MOOF, g.moof), g.moofWide)
  }

  predicate WellFormed(g: Fragment) {
    HeadOk(g) && Encodable(Box(MDAT, g.media), g.mediaWide)
  }

  /** What comes before the mdat. */
  function Head(g: Fragment): seq<byte>
    requires HeadOk(g)
  {
    Codes(g.before) + (Encode(Box(MOOF, g.moof), g.moofWide) + Codes(g.between))
  }

  function CodeOf(g: Fragment): seq<byte>
    requires WellFormed(g)
  {
    Head(g) + Encode(Box(MDAT, g.media), g.mediaWide)
  }

  /** Where the payload of the fragment's mdat starts when the fragment starts at `pos`. */
  function PayloadAt(g: Fragment, pos: nat): nat
    requires HeadOk(g)
  {
    pos + |Head(g)| + HeaderSize(g.mediaWide)
  }

  /** The plan in force while the mdat is read: without a data offset the samples start at its payload. */
  function PlanOf(cfg: Config, g: Fragment, pos: nat): Plan
    requires HeadOk(g)
  {
    var plan := MoofPlan(cfg.track, cfg.size, pos + |Codes(g.before)|, g.moof);
    if plan.start.None? then plan.(start := Some(PayloadAt(g, pos))) else plan
  }

  /** The mdat holds all planned samples, and the first does not start before its payload. */
  predicate Covered(cfg: Config, g: Fragment, pos: nat)
    requires HeadOk(g)
  {
    var plan := PlanOf(cfg, g, pos);
    PayloadAt(g, pos) <= plan.start.value
    && PlanEnd(plan) <= PayloadAt(g, pos) + |g.media|
  }

  lemma MoofBox(rd: MoovReader, s: State, moof: seq<byte>, wide: bool)
    requires s.phase == Header([]) && 0 < |moof| <= MAX_META_BOX && Encodable(Box(MOOF, moof), wide)
    ensures var code := Encode(Box(MOOF, moof), wide);
            Feed(Demuxer(rd), s, code) ==
            Run(State(s.cfg, Header([]), s.pos + |code|, MoofPlan(s.cfg.track, s.cfg.size, s.pos, moof), AT_START), [], true)
  {
    hide Feed, Then;
    FeedBox(rd, s, Box(MOOF, moof), wide);
    OpenedMoof(s, moof, wide);
    var at := s.pos + HeaderSize(wide);
    CollectStretch(rd, State(s.cfg, Collect(MOOF, |moof|, s.pos, []), at, s.plan, s.cur), moof);
    assert [] + moof == moof;
  }

  lemma OpenedMoof(s: State, moof: seq<byte>, wide: bool)
    requires 0 < |moof| <= MAX_META_BOX && Encodable(Box(MOOF, moof), wide)
    ensures Opened(s, Box(MOOF, moof), wide)
            == State(s.cfg, Collect(MOOF, |moof|, s.pos, []), s.pos + HeaderSize(wide), s.plan, s.cur)
  {
  }

  lemma MdatBox(rd: MoovReader, s: State, f: AudioFormat, media: seq<byte>, wide: bool)
    requires s.phase == Header([]) && Encodable(Box(MDAT, media), wide) && s.cfg.format == Some(f) && s.cur == AT_START
    ensures var code, at := Encode(Box(MDAT, media), wide), s.pos + HeaderSize(wide);
            var plan := if s.plan.start.None? then s.plan.(start := Some(at)) else s.plan;
            var m := Feed(Sampler(f, plan), Place(AT_START, at), media);
            Feed(Demuxer(rd), s, code) == Run(State(s.cfg, Header([]), s.pos + |code|, plan, m.st.cur), m.out, true)
  {
    hide Feed, Then;
    FeedBox(rd, s, Box(MDAT, media), wide);
    if media != [] {
      MediaStretch(rd, Opened(s, Box(MDAT, media), wide), media);
    } else {
      FeedNone(Demuxer(rd), Opened(s, Box(MDAT, media), wide));
      var plan := if s.plan.start.None? then s.plan.(start := Some(s.pos + HeaderSize(wide))) else s.plan;
      FeedNone(Sampler(f, plan), Place(AT_START, s.pos + HeaderSize(wide)));
    }
  }

  /** The state in front of a fragment's mdat. */
  function AfterHead(s: State, g: Fragment): State
    requires HeadOk(g)
  {
    State(s.cfg, Header([]), s.pos + |Head(g)|, MoofPlan(s.cfg.track, s.cfg.size, s.pos + |Codes(g.before)|, g.moof), AT_START)
  }

  /** A moof and the ignored boxes behind it. */
  lemma MoofAndBoxes(rd: MoovReader, s: State, moof: seq<byte>, wide: bool, items: seq<Item>)
    requires s.phase == Header([]) && 0 < |moof| <= MAX_META_BOX && Encodable(Box(MOOF, moof), wide) && AllIgnored(items)
    ensures
      var code := Encode(Box(MOOF, moof), wide) + Codes(items);
      Feed(Demuxer(rd), s, code) ==
      Run(State(s.cfg, Header([]), s.pos + |code|, MoofPlan(s.cfg.track, s.cfg.size, s.pos, moof), AT_START), [], true)
  {
    hide Feed, Then, MoofPlan, Encode, Codes, Demuxer, AllIgnored, Encodable;
    var code := Encode(Box(MOOF, moof), wide);
    var s2 := State(s.cfg, Header([]), s.pos + |code|, MoofPlan(s.cfg.track, s.cfg.size, s.pos, moof), AT_START);
    MoofBox(rd, s, moof, wide);
    FeedQuiet(Demuxer(rd), s, code, s2, Codes(items));
    IgnoredBoxes(rd, s2, items);
  }

  lemma FragmentHead(rd: MoovReader, s: State, g: Fragment)
    requires s.phase == Header([]) && HeadOk(g)
    ensures Feed(Demuxer(rd), s, Head(g)) == Run(AfterHead(s, g), [], true)
  {
    hide Feed, Then, MoofPlan, Encode, Codes, Demuxer, AllIgnored, Encodable;
    var s1 := s.(pos := s.pos + |Codes(g.before)|);
    IgnoredBoxes(rd, s, g.before);
    FeedQuiet(Demuxer(rd), s, Codes(g.before), s1, Encode(Box(MOOF, g.moof), g.moofWide) + Codes(g.between));
    MoofAndBoxes(rd, s1, g.moof, g.moofWide, g.between);
  }

  lemma FragmentRun(rd: MoovReader, s: State, f: AudioFormat, g: Fragment)
    requires s.phase == Header([]) && s.cfg.format == Some(f) && WellFormed(g)
    ensures var m := Feed(Sampler(f, PlanOf(s.cfg, g, s.pos)), Place(AT_START, PayloadAt(g, s.pos)), g.media);
            Feed(Demuxer(rd), s, CodeOf(g)) ==
            Run(State(s.cfg, Header([]), s.pos + |CodeOf(g)|, PlanOf(s.cfg, g, s.pos), m.st.cur), m.out, true)
  {
    hide Feed, Then, Sampler, Demuxer, Encode, Codes, MoofPlan;
    var s2, mdat := AfterHead(s, g), Encode(Box(MDAT, g.media), g.mediaWide);
    FragmentHead(rd, s, g);
    FeedQuiet(Demuxer(rd), s, Head(g), s2, mdat);
    MdatBox(rd, s2, f, g.media, g.mediaWide);
    assert s2.pos + HeaderSize(g.mediaWide) == PayloadAt(g, s.pos) && s2.pos + |mdat| == s.pos + |CodeOf(g)|;
    assert PlanOf(s.cfg, g, s.pos) == if s2.plan.start.None? then s2.plan.(start := Some(PayloadAt(g, s.pos))) else s2.plan;
  }

  lemma PayloadEnds(g: Fragment, pos: nat, seg: seq<byte>)
    requires WellFormed(g) && pos + |CodeOf(g)| <= |seg| && seg[pos..pos + |CodeOf(g)|] == CodeOf(g)
    ensures PayloadAt(g, pos) + |g.media| == pos + |CodeOf(g)|
    ensures seg[PayloadAt(g, pos)..pos + |CodeOf(g)|] == g.media
  {
    hide Head, HeaderCode, HeadOk, Encodable, OpenBox, NeedsMore, ReadHeader;
    HeaderOf(Box(MDAT, g.media), g.mediaWide, 0, NO_PLAN);
    var at, end := PayloadAt(g, pos), pos + |CodeOf(g)|;
    assert seg[at..end] == seg[pos..end][at - pos..];
    assert CodeOf(g)[at - pos..] == g.media;
  }

  /** One fragment at segment position `s.pos`, from any state between boxes. */
  lemma FragmentExtract(rd: MoovReader, s: State, f: AudioFormat, g: Fragment, seg: seq<byte>)
    requires s.phase == Header([]) && s.cfg.format == Some(f) && WellFormed(g) && Covered(s.cfg, g, s.pos)
    requires s.pos + |CodeOf(g)| <= |seg| && seg[s.pos..s.pos + |CodeOf(g)|] == CodeOf(g)
    ensures PlanEnd(PlanOf(s.cfg, g, s.pos)) <= |seg|
    ensures var plan, r := PlanOf(s.cfg, g, s.pos), Feed(Demuxer(rd), s, CodeOf(g));
            && r.ok && r.out == Samples(f, seg, plan.start.value, plan.sizes, 0)
            && r.st.phase == Header([]) && r.st.cfg == s.cfg && r.st.pos == s.pos + |CodeOf(g)|
  {
    hide Feed, Then, MoofPlan, Encode, Codes, Samples;
    FragmentRun(rd, s, f, g);
    PayloadEnds(g, s.pos, seg);
    var plan := PlanOf(s.cfg, g, s.pos);
    Extract(f, plan, plan.start.value, seg, PayloadAt(g, s.pos), s.pos + |CodeOf(g)|);
  }

  /** The end of the last planned sample. */
  function PlanEnd(plan: Plan): nat
    requires plan.start.Some?
  {
    plan.start.value + Offset(plan.sizes, |plan.sizes|)
  }

  // ---- how a segment ends

  /** Behind the last fragment: ignored boxes, or one more fragment whose mdat has size 0 and reaches to the end. */
  datatype Ending = Behind(items: seq<Item>) | Unended(g: Fragment)

  predicate EndingOk(e: Ending) {
    match e
    case Behind(items) => AllIgnored(items)
    case Unended(g) => HeadOk(g) && |g.media| < OPEN_ENDED
  }

  /** An mdat header of size 0, in either form. */
  function OpenHeader(wide: bool): (h: seq<byte>)
    ensures |h| == HeaderSize(wide)
  {
    if wide then Be32(1) + Be32(MDAT) + Be64(0) else Be32(0) + Be32(MDAT)
  }

  function EndingCode(e: Ending): seq<byte>
    requires EndingOk(e)
  {
    match e
    case Behind(items) => Codes(items)
    case Unended(g) => Head(g) + (OpenHeader(g.mediaWide) + g.media)
  }

  lemma OpenHeaderFields(wide: bool, pos: nat, plan: Plan)
    ensures
      var h := OpenHeader(wide);
      && NeedsMore(h[..|h| - 1]) && !NeedsMore(h)
      && ReadHeader(pos, plan, h) == OpenBox(pos, plan, |h|, 0, MDAT)
  {
    hide OpenBox, Be32, Be64;
    var h := OpenHeader(wide);
    Rd32Of(Be32(if wide then 1 else 0), h);
    Rd32Of(Be32(MDAT), h[4..]);
    if wide {
      assert h[8..] == Be64(0);
      assert h[..15][..4] == h[..4];
      Rd32Of(h[..4], h[..15]);
    }
  }

  /** Reading a number needs only its four bytes. */
  lemma Rd32Of(n: seq<byte>, b: seq<byte>)
    requires |n| == 4 && |b| >= 4 && b[..4] == n
    ensures Rd32(b) == Rd32(n)
  {
    assert b[0] == b[..4][0] && b[1] == b[..4][1] && b[2] == b[..4][2] && b[3] == b[..4][3];
  }

  /** An mdat of size 0: its samples are cut, and it stays open. */
  lemma OpenMdat(rd: MoovReader, s: State, f: AudioFormat, media: seq<byte>, wide: bool)
    requires s.phase == Header([]) && s.cfg.format == Some(f) && s.cur == AT_START && |media| < OPEN_ENDED
    ensures
      var code, at := OpenHeader(wide) + media, s.pos + HeaderSize(wide);
      var plan := if s.plan.start.None? then s.plan.(start := Some(at)) else s.plan;
      var m := Feed(Sampler(f, plan), Place(AT_START, at), media);
      Feed(Demuxer(rd), s, code) == Run(State(s.cfg, Media(OPEN_ENDED), s.pos + |code|, plan, m.st.cur), m.out, true)
  {
    hide Feed, Then, OpenHeader, Sampler, Demuxer;
    var h, at := OpenHeader(wide), s.pos + HeaderSize(wide);
    var plan := if s.plan.start.None? then s.plan.(start := Some(at)) else s.plan;
    var inside := State(s.cfg, Media(OPEN_ENDED), at, plan, s.cur);
    OpenHeaderFields(wide, at, s.plan);
    assert [] + h == h && [] + h[..|h| - 1] == h[..|h| - 1];
    HeaderStretch(rd, s, h);
    FeedQuiet(Demuxer(rd), s, h, inside, media);
    if media == [] {
      FeedNone(Demuxer(rd), inside);
      FeedNone(Sampler(f, plan), Place(AT_START, at));
    } else {
      MediaStretch(rd, inside, media);
    }
  }

  ghost predicate EndingCovered(cfg: Config, e: Ending, pos: nat) {
    EndingOk(e) && (e.Unended? ==> Covered(cfg, e.g, pos))
  }

  function EndingSamples(f: AudioFormat, cfg: Config, seg: seq<byte>, e: Ending, pos: nat): seq<seq<byte>>
    requires EndingOk(e)
  {
    match e
    case Behind(_) => []
    case Unended(g) =>
      var plan := PlanOf(cfg, g, pos);
      if PlanEnd(plan) <= |seg| then Samples(f, seg, plan.start.value, plan.sizes, 0) else []
  }

  /** The last part of a segment. */
  lemma EndingExtract(rd: MoovReader, s: State, f: AudioFormat, e: Ending, seg: seq<byte>)
    requires s.phase == Header([]) && s.cfg.format == Some(f) && EndingCovered(s.cfg, e, s.pos)
    requires s.pos <= |seg| && seg[s.pos..] == EndingCode(e)
    ensures
      var r := Feed(Demuxer(rd), s, EndingCode(e));
      r.ok && r.out == EndingSamples(f, s.cfg, seg, e, s.pos)
  {
    hide Feed, Then, MoofPlan, Codes, Samples, Sampler, Demuxer, OpenHeader, Head;
    match e {
      case Behind(items) => IgnoredBoxes(rd, s, items);
      case Unended(g) =>
        var at, mdat := PayloadAt(g, s.pos), OpenHeader(g.mediaWide) + g.media;
        var plan, s2 := PlanOf(s.cfg, g, s.pos), AfterHead(s, g);
        FragmentHead(rd, s, g);
        FeedQuiet(Demuxer(rd), s, Head(g), s2, mdat);
        OpenMdat(rd, s2, f, g.media, g.mediaWide);
        TailOf(seg, s.pos, Head(g), OpenHeader(g.mediaWide), g.media);
        Extract(f, plan, plan.start.value, seg, at, |seg|);
        assert seg[at..|seg|] == g.media;
        assert PlanEnd(plan) <= |seg|;
    }
  }

  lemma TailOf(seg: seq<byte>, pos: nat, a: seq<byte>, b: seq<byte>, c: seq<byte>)
    requires pos <= |seg| && seg[pos..] == a + (b + c)
    ensures pos + |a| + |b| + |c| == |seg| && seg[pos + |a| + |b|..] == c
  {
    assert seg[pos..][|a| + |b|..] == c;
  }

  // ---- whole segments

  function SegmentCode(gs: seq<Fragment>): seq<byte>
    requires forall g :: g in gs ==> WellFormed(g)
  {
    if gs == [] then [] else CodeOf(gs[0]) + SegmentCode(gs[1..])
  }

  ghost predicate AllCovered(cfg: Config, gs: seq<Fragment>, pos: nat) {
    gs == [] || (WellFormed(gs[0]) && Covered(cfg, gs[0], pos) && AllCovered(cfg, gs[1..], pos + |CodeOf(gs[0])|))
  }

  /** The samples of all fragments, in order, as ranges of the whole segment. */
  function SegmentSamples(f: AudioFormat, cfg: Config, seg: seq<byte>, gs: seq<Fragment>, pos: nat): seq<seq<byte>>
    requires forall g :: g in gs ==> WellFormed(g)
  {
    if gs == [] then []
    else
      assert WellFormed(gs[0]);
      var plan := PlanOf(cfg, gs[0], pos);
      (if PlanEnd(plan) <= |seg| then Samples(f, seg, plan.start.value, plan.sizes, 0) else [])
      + SegmentSamples(f, cfg, seg, gs[1..], pos + |CodeOf(gs[0])|)
  }

  /** Where the fragments end. */
  function EndPos(gs: seq<Fragment>, pos: nat): nat
    requires forall g :: g in gs ==> WellFormed(g)
  {
    if gs == [] then pos else EndPos(gs[1..], pos + |CodeOf(gs[0])|)
  }

  /**
   * Sample extraction: on a segment of fragments whose mdats cover what their moofs announce, however it ends, the
   * sink receives, in order, exactly the announced byte ranges of the segment as ADTS frames.
   */
  lemma {:induction false} SegmentExtract(rd: MoovReader, s: State, f: AudioFormat, gs: seq<Fragment>, e: Ending,
                                          seg: seq<byte>)
    requires s.phase == Header([]) && s.cfg.format == Some(f)
    requires (forall g :: g in gs ==> WellFormed(g)) && AllCovered(s.cfg, gs, s.pos)
    requires EndingOk(e) && EndingCovered(s.cfg, e, EndPos(gs, s.pos))
    requires s.pos <= |seg| && seg[s.pos..] == SegmentCode(gs) + EndingCode(e)
    ensures
      var r := Feed(Demuxer(rd), s, SegmentCode(gs) + EndingCode(e));
      r.ok && r.out == SegmentSamples(f, s.cfg, seg, gs, s.pos) + EndingSamples(f, s.cfg, seg, e, EndPos(gs, s.pos))
    decreases |gs|
  {
    hide Feed, Then, PlanOf, PlanEnd, CodeOf, Samples, Covered, WellFormed, HeadOk, Demuxer;
    hide EndingOk, EndingCode, EndingSamples, EndingCovered;
    var last := EndingCode(e);
    if gs == [] {
      assert SegmentCode(gs) + last == last;
      EndingExtract(rd, s, f, e, seg);
      var out := EndingSamples(f, s.cfg, seg, e, s.pos);
      assert [] + out == out;
    } else {
      var code, rest := CodeOf(gs[0]), SegmentCode(gs[1..]) + last;
      assert SegmentCode(gs) + last == code + rest;
      SegmentParts(seg, s.pos, code, rest);
      FragmentExtract(rd, s, f, gs[0], seg);
      var next := Feed(Demuxer(rd), s, code).st;
      SegmentExtract(rd, next, f, gs[1..], e, seg);
      FeedThen(Demuxer(rd), s, code, Feed(Demuxer(rd), s, code), rest);
    }
  }

  lemma SegmentParts(seg: seq<byte>, pos: nat, code: seq<byte>, rest: seq<byte>)
    requires pos <= |seg| && seg[pos..] == code + rest
    ensures pos + |code| <= |seg| && seg[pos..pos + |code|] == code && seg[pos + |code|..] == rest
  {
    assert seg[pos..][..|code|] == code && seg[pos..][|code|..] == rest;
  }
}
