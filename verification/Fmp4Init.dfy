/**
 * Init segments. The downloader passes every network read of an init segment to fmp4_feed_init, which
 * starts afresh each time: unlike media, an init segment is sensitive to how it is cut.
 */
module Fmp4Init {
  import opened Bytes
  import opened Machine
  import opened Adts
  import opened Fmp4Boxes
  import opened Fmp4Spec
  import opened Fmp4Theorems
  import opened Fmp4

  /** The configuration after one fmp4_feed_init per read; a failure ends the download. */
  function InitReads(rd: MoovReader, cfg: Config, pieces: seq<seq<byte>>): (Config, bool)
    decreases |pieces|
  {
    if pieces == [] then (cfg, true)
    else
      var r := Feed(Demuxer(rd), Reset(cfg), pieces[0]);
      if r.ok then InitReads(rd, r.st.cfg, pieces[1..]) else (r.st.cfg, false)
  }

  /** The configuration of the init segment in one read. */
  function InitWhole(rd: MoovReader, cfg: Config, seg: seq<byte>): (Config, bool) {
    var r := Feed(Demuxer(rd), Reset(cfg), seg);
    (r.st.cfg, r.ok)
  }

  /** The download of an init segment: one fmp4_feed_init for each read, until one fails. */
  method DownloadInit(c: Fmp4Demuxer, pieces: seq<seq<byte>>) returns (ok: bool)
    requires c.Shaped() && c.boxHave <= MAX_META_BOX
    modifies c, c.hdr, c.box, c.sizes, c.frame
    ensures c.Shaped() && c.boxHave <= MAX_META_BOX
    ensures (c.Cfg(), ok) == InitReads(c.readMoov, old(c.Cfg()), pieces)
  {
    hide Feed;
    ok := true;
    var i := 0;
    while i < |pieces| && ok
      invariant 0 <= i <= |pieces| && c.Shaped() && c.boxHave <= MAX_META_BOX
      invariant InitReads(c.readMoov, old(c.Cfg()), pieces) ==
                if ok then InitReads(c.readMoov, c.Cfg(), pieces[i..]) else (c.Cfg(), false)
    {
      assert pieces[i..][1..] == pieces[i + 1..];
      ok := c.FeedInit(pieces[i]);
      i := i + 1;
    }
  }

  // ---- position and samples do not matter to the configuration

  ghost predicate Alike(s: State, t: State) {
    && s.cfg == t.cfg
    && (match s.phase
        case Collect(kind, remain, start, have) =>
          t.phase.Collect? && t.phase.kind == kind && t.phase.remain == remain && t.phase.have == have
        case _ => s.phase == t.phase)
  }

  lemma AlikeStep(rd: MoovReader, s: State, t: State, b: byte)
    requires Alike(s, t)
    ensures var x, y := DemuxByte(rd, s, b), DemuxByte(rd, t, b);
            x.ok == y.ok && Alike(x.st, y.st)
  {
    hide MoofPlan, MediaByte;
  }

  lemma {:induction false} AlikeRuns(rd: MoovReader, s: State, t: State, d: seq<byte>)
    requires Alike(s, t)
    ensures var x, y := Feed(Demuxer(rd), s, d), Feed(Demuxer(rd), t, d);
            x.ok == y.ok && Alike(x.st, y.st)
    decreases |d|
  {
    if d != [] {
      AlikeStep(rd, s, t, d[0]);
      var x, y := DemuxByte(rd, s, d[0]), DemuxByte(rd, t, d[0]);
      AlikeRuns(rd, x.st, y.st, d[1..]);
    }
  }

  // ---- reads that do not begin a moov keep the configuration

  /** The letters of a moov stand in `b` at no place a header could hold them, except possibly at `at`. */
  ghost predicate MoovOnlyAt(b: seq<byte>, at: int) {
    forall i :: 4 <= i && i + 4 <= |b| && Rd32(b[i..]) == MOOV ==> i == at
  }

  /** The parser is between boxes after these bytes. */
  predicate BetweenBoxes(rd: MoovReader, cfg: Config, b: seq<byte>) {
    var r := Feed(Demuxer(rd), Reset(cfg), b);
    r.ok && r.st.phase == Header([])
  }

  /** What the phase remembers after the bytes `b`. */
  ghost predicate Honest(s: State, b: seq<byte>) {
    match s.phase
    case Header(h) => |h| <= |b| && h == b[|b| - |h|..]
    case Collect(kind, _, _, _) => kind != MOOV
    case _ => true
  }

  /** No header that begins at `start` is being read. */
  ghost predicate Misses(s: State, b: seq<byte>, start: int) {
    Honest(s, b) && (s.phase.Header? ==> |b| - |s.phase.have| != start)
  }

  lemma MissesStep(rd: MoovReader, s: State, b: seq<byte>, start: int)
    requires b != [] && MoovOnlyAt(b, start + 4) && Misses(s, b[..|b| - 1], start)
    ensures
      var r := DemuxByte(rd, s, b[|b| - 1]);
      r.st.cfg == s.cfg && (r.ok ==> Honest(r.st, b) && (|b| != start ==> Misses(r.st, b, start)))
  {
    hide MoofPlan, MediaByte, MoovOnlyAt;
    if s.phase.Header? {
      var h := s.phase.have + [b[|b| - 1]];
      assert h == b[|b| - |h|..];
      if !NeedsMore(h) {
        var at := |b| - |h| + 4;
        assert b[at..] == h[4..];
        assert Rd32(b[at..]) != MOOV by {
          LettersAt(b, start + 4, at);
        }
      }
    }
  }

  lemma LettersAt(b: seq<byte>, only: int, at: nat)
    requires MoovOnlyAt(b, only) && 4 <= at && at + 4 <= |b| && at != only
    ensures Rd32(b[at..]) != MOOV
  {
  }

  lemma OnlyInPrefix(b: seq<byte>, at: int, n: nat)
    requires MoovOnlyAt(b, at) && n <= |b|
    ensures MoovOnlyAt(b[..n], at)
  {
    forall i | 4 <= i && i + 4 <= n && Rd32(b[..n][i..]) == MOOV ensures i == at {
      assert Rd32(b[..n][i..]) == Rd32(b[i..]);
    }
  }

  lemma OnlyInSuffix(b: seq<byte>, at: int, n: nat)
    requires MoovOnlyAt(b, at) && n <= |b|
    ensures MoovOnlyAt(b[n..], at - n)
  {
    forall i | 4 <= i && i + 4 <= |b| - n && Rd32(b[n..][i..]) == MOOV ensures i == at - n {
      assert b[n..][i..] == b[n + i..];
    }
  }

  /** A read in which the parser does not stand between boxes at `start` keeps the configuration. */
  lemma {:induction false} KeepsConfig(rd: MoovReader, cfg: Config, b: seq<byte>, start: int)
    requires MoovOnlyAt(b, start + 4)
    requires 0 <= start <= |b| ==> !BetweenBoxes(rd, cfg, b[..start])
    ensures
      var r := Feed(Demuxer(rd), Reset(cfg), b);
      r.st.cfg == cfg && (r.ok ==> Misses(r.st, b, start))
    decreases |b|
  {
    hide Feed, Then, MoovOnlyAt;
    if b == [] {
      FeedNone(Demuxer(rd), Reset(cfg));
      assert b[..0] == [];
    } else {
      var last := |b| - 1;
      OnlyInPrefix(b, start + 4, last);
      assert 0 <= start <= last ==> b[..last][..start] == b[..start];
      KeepsConfig(rd, cfg, b[..last], start);
      FeedLast(Demuxer(rd), Reset(cfg), b);
      var r := Feed(Demuxer(rd), Reset(cfg), b[..last]);
      if r.ok {
        MissesStep(rd, r.st, b, start);
        assert start == |b| ==> b[..start] == b;
      }
    }
  }

  // ---- the moov box itself

  function MoovCode(moov: seq<byte>, wide: bool): (r: seq<byte>)
    requires 0 < |moov| <= MAX_META_BOX
    ensures |r| == |moov| + HeaderSize(wide)
  {
    Encode(Box(MOOV, moov), wide)
  }

  lemma OpenedMoov(s: State, moov: seq<byte>, wide: bool)
    requires 0 < |moov| <= MAX_META_BOX
    ensures
      var at := s.pos + HeaderSize(wide);
      Opened(s, Box(MOOV, moov), wide) ==
      State(s.cfg, Collect(MOOV, |moov|, if at >= HeaderSize(wide) then at - HeaderSize(wide) else 0, []), at, s.plan, s.cur)
  {
  }

  /** From between boxes, a whole moov is read. */
  lemma WholeMoov(rd: MoovReader, s: State, moov: seq<byte>, wide: bool)
    requires s.phase == Header([]) && 0 < |moov| <= MAX_META_BOX
    ensures
      var r := Feed(Demuxer(rd), s, MoovCode(moov, wide));
      && r.st.cfg == rd(s.cfg, moov) && r.ok == rd(s.cfg, moov).format.Some?
      && r.st.phase == Header([]) && r.out == []
  {
    hide Feed, Then, Encode, Opened;
    FeedBox(rd, s, Box(MOOV, moov), wide);
    OpenedMoov(s, moov, wide);
    CollectStretch(rd, Opened(s, Box(MOOV, moov), wide), moov);
    assert [] + moov == moov;
  }

  lemma PartOfHeader(rd: MoovReader, s: State, b: Box, wide: bool, k: nat)
    requires s.phase == Header([]) && Encodable(b, wide) && 0 < k < HeaderSize(wide)
    ensures
      Feed(Demuxer(rd), s, HeaderCode(b, wide)[..k]) ==
      Run(s.(pos := s.pos + k, phase := Header(HeaderCode(b, wide)[..k])), [], true)
  {
    hide Feed, Then, HeaderCode, AfterHeader, NeedsMore;
    var h := HeaderCode(b, wide);
    var part := h[..k];
    StillNeedsMore(b, wide, k);
    StillNeedsMore(b, wide, k - 1);
    assert [] + part == part && part[..k - 1] == h[..k - 1] && [] + h[..k - 1] == h[..k - 1];
    HeaderStretch(rd, s, part);
    StillHeader(s.(pos := s.pos + k), part);
  }

  lemma StillNeedsMore(b: Box, wide: bool, k: nat)
    requires Encodable(b, wide) && k < HeaderSize(wide)
    ensures NeedsMore(HeaderCode(b, wide)[..k])
  {
    HeaderOf(b, wide, 0, NO_PLAN);
    hide HeaderCode;
    var h := HeaderCode(b, wide);
    assert k >= 8 ==> h[..k][..4] == h[..|h| - 1][..4];
  }

  /** A proper part of it changes nothing yet. */
  lemma PartOfMoov(rd: MoovReader, s: State, moov: seq<byte>, wide: bool, k: nat)
    requires s.phase == Header([]) && 0 < |moov| <= MAX_META_BOX && k < |MoovCode(moov, wide)|
    ensures
      var r := Feed(Demuxer(rd), s, MoovCode(moov, wide)[..k]);
      r.ok && r.st.cfg == s.cfg && r.out == []
  {
    hide Feed, Then, OpenBox, HeaderCode, Opened;
    var box, n := Box(MOOV, moov), HeaderSize(wide);
    var h, part := HeaderCode(box, wide), Encode(box, wide)[..k];
    if k == 0 {
      FeedNone(Demuxer(rd), s);
    } else if k < n {
      assert part == h[..k];
      PartOfHeader(rd, s, box, wide, k);
    } else {
      FeedHeader(rd, s, box, wide);
      assert part == h + moov[..k - n];
      OpenedMoov(s, moov, wide);
      FeedQuiet(Demuxer(rd), s, h, Opened(s, box, wide), moov[..k - n]);
      if k == n {
        FeedNone(Demuxer(rd), Opened(s, box, wide));
      } else {
        CollectStretch(rd, Opened(s, box, wide), moov[..k - n]);
      }
    }
  }

  // ---- the exact condition, for any number of reads cut anywhere

  /** The letters of the moov of `pre + code + post` occur only in its own header. */
  ghost predicate OneMoov(pre: seq<byte>, moov: seq<byte>, wide: bool, post: seq<byte>) {
    0 < |moov| <= MAX_META_BOX && MoovOnlyAt(pre + MoovCode(moov, wide) + post, |pre| + 4)
  }

  /**
   * Whether the reads adopt a box of `len` bytes that begins at `start`: no earlier read fails, one read holds
   * the whole box, and that read is between boxes when the box begins.
   */
  predicate Adopted(rd: MoovReader, cfg: Config, pieces: seq<seq<byte>>, start: nat, len: nat)
    decreases |pieces|
  {
    && pieces != []
    && if |pieces[0]| <= start then
         Feed(Demuxer(rd), Reset(cfg), pieces[0]).ok && Adopted(rd, cfg, pieces[1..], start - |pieces[0]|, len)
       else |pieces[0]| >= start + len && BetweenBoxes(rd, cfg, pieces[0][..start])
  }

  /** Reads without a moov change nothing. */
  lemma {:induction false} KeepsOn(rd: MoovReader, cfg: Config, pieces: seq<seq<byte>>, b: seq<byte>)
    requires MoovOnlyAt(b, 0) && b == Flatten(pieces)
    ensures InitReads(rd, cfg, pieces).0 == cfg
    decreases |pieces|
  {
    hide Feed, MoovOnlyAt;
    if pieces != [] {
      var n := |pieces[0]|;
      FlattenFirst(pieces);
      assert b[..n] == pieces[0] && b[n..] == Flatten(pieces[1..]);
      OnlyInPrefix(b, 0, n);
      OnlyInSuffix(b, 0, n);
      NowhereAhead(b[n..], -n);
      KeepsConfig(rd, cfg, pieces[0], -4);
      KeepsOn(rd, cfg, pieces[1..], b[n..]);
    }
  }

  /** Too early for a header is nowhere. */
  lemma NowhereAhead(b: seq<byte>, at: int)
    requires MoovOnlyAt(b, at) && at < 4
    ensures MoovOnlyAt(b, 0)
  {
  }

  /** The read that holds the whole moov, between boxes. */
  lemma ReadAdopts(rd: MoovReader, cfg: Config, pre: seq<byte>, moov: seq<byte>, wide: bool, post: seq<byte>)
    requires OneMoov(pre, moov, wide, post) && BetweenBoxes(rd, cfg, pre)
    ensures Feed(Demuxer(rd), Reset(cfg), pre + MoovCode(moov, wide) + post).st.cfg == rd(cfg, moov)
  {
    hide Feed, Then, MoovCode, MoovOnlyAt, Misses, Alike;
    var code := MoovCode(moov, wide);
    var b := pre + code + post;
    OnlyInPrefix(b, |pre| + 4, |pre|);
    assert b[..|pre|] == pre;
    Unreached(pre, |pre| + 4);
    KeepsConfig(rd, cfg, pre, -4);
    var r := Feed(Demuxer(rd), Reset(cfg), pre);
    FeedThen(Demuxer(rd), Reset(cfg), pre, r, code + post);
    assert b == pre + (code + post);
    WholeMoov(rd, r.st, moov, wide);
    var q := Feed(Demuxer(rd), r.st, code);
    if q.ok {
      FeedThen(Demuxer(rd), r.st, code, q, post);
      OnlyInSuffix(b, |pre| + 4, |pre| + |code|);
      assert b[|pre| + |code|..] == post;
      NowhereAhead(post, 4 - |code|);
      KeepsConfig(rd, q.st.cfg, post, -4);
      BetweenIsReset(q.st);
      AlikeRuns(rd, q.st, Reset(q.st.cfg), post);
      AlikeConfig(Feed(Demuxer(rd), q.st, post).st, Feed(Demuxer(rd), Reset(q.st.cfg), post).st);
    } else {
      FeedFailed(Demuxer(rd), r.st, code, post);
    }
  }

  lemma BetweenIsReset(s: State)
    requires s.phase == Header([])
    ensures Alike(s, Reset(s.cfg))
  {
  }

  lemma AlikeConfig(s: State, t: State)
    requires Alike(s, t)
    ensures s.cfg == t.cfg
  {
  }

  /** Letters that would begin behind the end do not occur. */
  lemma Unreached(b: seq<byte>, at: int)
    requires MoovOnlyAt(b, at) && at + 4 > |b|
    ensures MoovOnlyAt(b, 0)
  {
  }

  /** A read with only a part of the moov, between boxes. */
  lemma ReadHoldsPart(rd: MoovReader, cfg: Config, pre: seq<byte>, moov: seq<byte>, wide: bool, k: nat)
    requires 0 < |moov| <= MAX_META_BOX && k < |MoovCode(moov, wide)|
    requires BetweenBoxes(rd, cfg, pre) && Feed(Demuxer(rd), Reset(cfg), pre).st.cfg == cfg
    ensures
      var r := Feed(Demuxer(rd), Reset(cfg), pre + MoovCode(moov, wide)[..k]);
      r.ok && r.st.cfg == cfg
  {
    hide Feed, Then, MoovCode;
    var r := Feed(Demuxer(rd), Reset(cfg), pre);
    FeedThen(Demuxer(rd), Reset(cfg), pre, r, MoovCode(moov, wide)[..k]);
    PartOfMoov(rd, r.st, moov, wide, k);
  }

  /** What the first read does to the configuration when the moov begins in it. */
  lemma FirstRead(rd: MoovReader, cfg: Config, pre: seq<byte>, moov: seq<byte>, wide: bool, post: seq<byte>, n: nat)
    requires OneMoov(pre, moov, wide, post) && |pre| < n <= |pre + MoovCode(moov, wide) + post|
    ensures
      var p := (pre + MoovCode(moov, wide) + post)[..n];
      Feed(Demuxer(rd), Reset(cfg), p).st.cfg ==
      if n >= |pre| + |MoovCode(moov, wide)| && BetweenBoxes(rd, cfg, pre) then rd(cfg, moov) else cfg
  {
    hide Feed, Then, MoovCode, MoovOnlyAt, BetweenBoxes, Misses;
    var code := MoovCode(moov, wide);
    var b, k := pre + code + post, n - |pre|;
    var p := b[..n];
    OnlyInPrefix(b, |pre| + 4, n);
    assert p[..|pre|] == pre;
    if !BetweenBoxes(rd, cfg, pre) {
      KeepsConfig(rd, cfg, p, |pre|);
    } else if k >= |code| {
      assert p == pre + code + post[..k - |code|];
      ReadAdopts(rd, cfg, pre, moov, wide, post[..k - |code|]);
    } else {
      OnlyInPrefix(b, |pre| + 4, |pre|);
      assert b[..|pre|] == pre && p == pre + code[..k];
      Unreached(pre, |pre| + 4);
      KeepsConfig(rd, cfg, pre, -4);
      ReadHoldsPart(rd, cfg, pre, moov, wide, k);
    }
  }

  /**
   * However the download of an init segment is cut into reads, whatever stands in front of its moov and behind
   * it: the moov is adopted exactly if no read before it fails and one read holds all of it and is between boxes
   * where it begins. Otherwise the old configuration stays.
   */
  lemma {:induction false} InitReadsExact(rd: MoovReader, cfg: Config, pre: seq<byte>, moov: seq<byte>, wide: bool,
                                          post: seq<byte>, pieces: seq<seq<byte>>)
    requires OneMoov(pre, moov, wide, post) && Flatten(pieces) == pre + MoovCode(moov, wide) + post
    ensures
      InitReads(rd, cfg, pieces).0 ==
      if Adopted(rd, cfg, pieces, |pre|, |MoovCode(moov, wide)|) then rd(cfg, moov) else cfg
    decreases |pieces|
  {
    hide Feed, MoovCode, MoovOnlyAt, BetweenBoxes, Misses;
    var code := MoovCode(moov, wide);
    var b := pre + code + post;
    FlattenNone<byte>();
    var n := |pieces[0]|;
    FlattenFirst(pieces);
    hide Flatten;
    assert b[..n] == pieces[0] && b[n..] == Flatten(pieces[1..]);
    OnlyInPrefix(b, |pre| + 4, n);
    OnlyInSuffix(b, |pre| + 4, n);
    if n <= |pre| {
      Unreached(b[..n], |pre| + 4);
      KeepsConfig(rd, cfg, pieces[0], -4);
      assert b[n..] == pre[n..] + code + post;
      InitReadsExact(rd, cfg, pre[n..], moov, wide, post, pieces[1..]);
    } else {
      FirstRead(rd, cfg, pre, moov, wide, post, n);
      assert pieces[0][..|pre|] == pre;
      NowhereAhead(b[n..], |pre| + 4 - n);
      KeepsOn(rd, Feed(Demuxer(rd), Reset(cfg), pieces[0]).st.cfg, pieces[1..], b[n..]);
    }
  }

  // ---- for callers: cuts between boxes

  /** Every read but the last ends between two boxes. */
  predicate CutBetween(rd: MoovReader, cfg: Config, pieces: seq<seq<byte>>)
    decreases |pieces|
  {
    |pieces| <= 1
    || (BetweenBoxes(rd, cfg, pieces[0])
        && CutBetween(rd, Feed(Demuxer(rd), Reset(cfg), pieces[0]).st.cfg, pieces[1..]))
  }

  /** Any number of cuts between boxes is harmless. */
  lemma {:induction false} CutsBetweenBoxes(rd: MoovReader, cfg: Config, pieces: seq<seq<byte>>)
    requires CutBetween(rd, cfg, pieces)
    ensures InitReads(rd, cfg, pieces) == InitWhole(rd, cfg, Flatten(pieces))
    decreases |pieces|
  {
    hide Feed, Then, Flatten;
    if pieces == [] {
      FlattenNone<byte>();
      FeedNone(Demuxer(rd), Reset(cfg));
    } else if |pieces| == 1 {
      assert pieces == [pieces[0]] && pieces[1..] == [];
      FlattenOne(pieces[0]);
    } else {
      var r, rest := Feed(Demuxer(rd), Reset(cfg), pieces[0]), Flatten(pieces[1..]);
      FlattenFirst(pieces);
      CutsBetweenBoxes(rd, r.st.cfg, pieces[1..]);
      FeedThen(Demuxer(rd), Reset(cfg), pieces[0], r, rest);
      BetweenIsReset(r.st);
      AlikeRuns(rd, r.st, Reset(r.st.cfg), rest);
    }
  }

  /** Reads that each hold whole ignored boxes, and a last one. */
  function WholeBoxes(groups: seq<seq<Item>>, last: seq<byte>): seq<seq<byte>>
    requires forall g <- groups :: AllIgnored(g)
  {
    if groups == [] then [last] else [Codes(groups[0])] + WholeBoxes(groups[1..], last)
  }

  lemma IgnoredAreBetween(rd: MoovReader, cfg: Config, items: seq<Item>)
    requires AllIgnored(items)
    ensures BetweenBoxes(rd, cfg, Codes(items)) && Feed(Demuxer(rd), Reset(cfg), Codes(items)).st.cfg == cfg
  {
    hide Feed, Codes;
    IgnoredBoxes(rd, Reset(cfg), items);
  }

  /** Cuts at the boundaries of the boxes in front of the moov are harmless. */
  lemma {:induction false} WholeBoxesAreSafe(rd: MoovReader, cfg: Config, groups: seq<seq<Item>>, last: seq<byte>)
    requires forall g <- groups :: AllIgnored(g)
    ensures
      var pieces := WholeBoxes(groups, last);
      CutBetween(rd, cfg, pieces) && InitReads(rd, cfg, pieces) == InitWhole(rd, cfg, Flatten(pieces))
    decreases |groups|
  {
    hide Feed, Codes, Flatten, BetweenBoxes, InitReads, AllIgnored;
    var pieces := WholeBoxes(groups, last);
    if groups != [] {
      IgnoredAreBetween(rd, cfg, groups[0]);
      WholeBoxesAreSafe(rd, cfg, groups[1..], last);
      assert pieces[0] == Codes(groups[0]) && pieces[1..] == WholeBoxes(groups[1..], last);
    }
    CutsBetweenBoxes(rd, cfg, pieces);
  }

  // ---- a moov behind whole ignored boxes, and one cut

  /** An init segment: ignored boxes and a moov, whose four letters do not occur in it again. */
  ghost predicate InitSegment(before: seq<Item>, moov: seq<byte>) {
    && AllIgnored(before)
    && 0 < |moov| <= MAX_META_BOX
    && forall j :: 5 <= j && j + 4 <= |MoovCode(moov, false)| ==> Rd32(MoovCode(moov, false)[j..]) != MOOV
  }

  /**
   * When the download of an init segment is cut in two reads at offset `k` of its moov box, the new
   * configuration is adopted exactly if the cut is not inside the box.
   */
  lemma InitCutExact(rd: MoovReader, cfg: Config, before: seq<Item>, moov: seq<byte>, k: nat)
    requires InitSegment(before, moov) && k <= |MoovCode(moov, false)|
    requires rd(cfg, moov).format.Some? && rd(cfg, moov) != cfg
    ensures var code := MoovCode(moov, false);
            var a, b := Codes(before) + code[..k], code[k..];
            InitReads(rd, cfg, [a, b]).0 == rd(cfg, moov) <==> k == 0 || k == |code|
  {
    hide Feed, Then, MoovCode, Codes, InitSegment, MoovOnlyAt;
    InitParts(before, moov);
    IgnoredAreBetween(rd, cfg, before);
    var pre, code := Codes(before), MoovCode(moov, false);
    var a, b := pre + code[..k], code[k..];
    InitTwo(rd, cfg, a, b);
    if k == |code| {
      assert a == pre + code && b == [];
      AfterBoxes(rd, cfg, before, moov);
      FeedNone(Demuxer(rd), Reset(rd(cfg, moov)));
    } else if k == 0 {
      assert a == pre && b == code;
      WholeMoov(rd, Reset(cfg), moov, false);
    } else {
      ReadHoldsPart(rd, cfg, pre, moov, false, k);
      RestHasNoMoov(before, moov, k);
      KeepsConfig(rd, cfg, b, -4);
    }
  }

  lemma AfterBoxes(rd: MoovReader, cfg: Config, before: seq<Item>, moov: seq<byte>)
    requires AllIgnored(before) && 0 < |moov| <= MAX_META_BOX
    ensures
      var r := Feed(Demuxer(rd), Reset(cfg), Codes(before) + MoovCode(moov, false));
      r.st.cfg == rd(cfg, moov) && r.ok == rd(cfg, moov).format.Some?
  {
    hide Feed, Then, MoovCode, Codes;
    IgnoredBoxes(rd, Reset(cfg), before);
    var s := Reset(cfg).(pos := |Codes(before)|);
    FeedQuiet(Demuxer(rd), Reset(cfg), Codes(before), s, MoovCode(moov, false));
    WholeMoov(rd, s, moov, false);
  }

  lemma InitParts(before: seq<Item>, moov: seq<byte>)
    requires InitSegment(before, moov)
    ensures AllIgnored(before) && 0 < |moov| <= MAX_META_BOX
  {
  }

  lemma RestHasNoMoov(before: seq<Item>, moov: seq<byte>, k: nat)
    requires InitSegment(before, moov) && 0 < k <= |MoovCode(moov, false)|
    ensures MoovOnlyAt(MoovCode(moov, false)[k..], 0)
  {
    hide MoovCode;
    var code := MoovCode(moov, false);
    forall i | 4 <= i && i + 4 <= |code[k..]| ensures Rd32(code[k..][i..]) != MOOV {
      assert code[k..][i..] == code[k + i..];
    }
  }

  lemma InitTwo(rd: MoovReader, cfg: Config, a: seq<byte>, b: seq<byte>)
    ensures var r := Feed(Demuxer(rd), Reset(cfg), a);
            InitReads(rd, cfg, [a, b]).0 == if r.ok then Feed(Demuxer(rd), Reset(r.st.cfg), b).st.cfg else r.st.cfg
  {
    hide Feed, Then;
    var r := Feed(Demuxer(rd), Reset(cfg), a);
    assert [a, b][1..] == [b] && [b][1..] == [];
    if r.ok {
      var q := Feed(Demuxer(rd), Reset(r.st.cfg), b);
      assert InitReads(rd, r.st.cfg, [b]) == if q.ok then InitReads(rd, q.st.cfg, []) else (q.st.cfg, false);
    }
  }

  // ---- a cut in front of the moov can lose it too

  /** A file type box of twelve bytes. */
  const FTYP := Box(0x6674_7970, [0x69, 0x73, 0x6F, 0x6D])

  lemma FtypIsIgnored()
    ensures AllIgnored([Item(FTYP, false)])
    ensures Codes([Item(FTYP, false)]) == Be32(12) + Be32(0x6674_7970) + FTYP.body
  {
    var items := [Item(FTYP, false)];
    assert items[1..] == [];
    assert Codes(items) == Code(items[0]) + [];
  }

  /** Behind a cut inside the file type box the rest is taken for one huge box, and the moov is skipped with it. */
  lemma FtypCutLosesMoov(rd: MoovReader, cfg: Config, moov: seq<byte>)
    requires 0 < |moov| <= MAX_META_BOX
    ensures AllIgnored([Item(FTYP, false)])
    ensures
      var ftyp := Codes([Item(FTYP, false)]);
      InitReads(rd, cfg, [ftyp[..4], ftyp[4..] + MoovCode(moov, false)]) == (cfg, true)
  {
    hide Feed, Then, MoovCode, Codes, OpenBox, Be32, Demuxer, AllIgnored, InitReads;
    FtypIsIgnored();
    var ftyp, code := Codes([Item(FTYP, false)]), MoovCode(moov, false);
    var a: seq<byte>, b: seq<byte> := ftyp[..4], ftyp[4..] + code;
    assert [] + a == a && [] + a[..3] == a[..3];
    HeaderStretch(rd, Reset(cfg), a);
    InitTwoReads(rd, cfg, a, b);
    var h := ftyp[4..];
    assert h == Be32(0x6674_7970) + FTYP.body;
    assert h[..4] == Be32(0x6674_7970) && h[4..] == FTYP.body;
    assert Rd32(h) == 0x6674_7970 && Rd32(h[4..]) == 0x6973_6F6D;
    assert [] + h == h && [] + h[..7] == h[..7];
    HeaderStretch(rd, Reset(cfg), h);
    HugeBox(cfg, h);
    var s := State(cfg, Skip(0x6674_7970 - 8), 8, NO_PLAN, AT_START);
    FeedQuiet(Demuxer(rd), Reset(cfg), h, s, code);
    SkipStretch(rd, s, code);
  }

  lemma InitTwoReads(rd: MoovReader, cfg: Config, a: seq<byte>, b: seq<byte>)
    requires Feed(Demuxer(rd), Reset(cfg), a).ok && Feed(Demuxer(rd), Reset(cfg), a).st.cfg == cfg
    ensures
      var q := Feed(Demuxer(rd), Reset(cfg), b);
      InitReads(rd, cfg, [a, b]) == (q.st.cfg, q.ok)
  {
    hide Feed, Then;
    var q := Feed(Demuxer(rd), Reset(cfg), b);
    assert [a, b][1..] == [b] && [b][1..] == [];
    assert InitReads(rd, cfg, [b]) == if q.ok then InitReads(rd, q.st.cfg, []) else (q.st.cfg, false);
  }

  lemma HugeBox(cfg: Config, h: seq<byte>)
    requires |h| == 8 && Rd32(h) == 0x6674_7970 && Rd32(h[4..]) == 0x6973_6F6D
    ensures
      AfterHeader(Reset(cfg).(pos := 8), h) ==
      Run(State(cfg, Skip(0x6674_7970 - 8), 8, NO_PLAN, AT_START), [], true)
  {
  }

  /** The statements above speak about something: a moov of one byte behind a file type box. */
  lemma AnInitSegment()
    ensures AllIgnored([Item(FTYP, false)])
    ensures InitSegment([Item(FTYP, false)], [0]) && OneMoov(Codes([Item(FTYP, false)]), [0], false, [])
  {
    FtypIsIgnored();
    var pre, code := Codes([Item(FTYP, false)]), MoovCode([0], false);
    assert code == Be32(9) + Be32(MOOV) + [0];
    assert Be32(9) == [0, 0, 0, 9] && Be32(MOOV) == [0x6D, 0x6F, 0x6F, 0x76] && Be32(12) == [0, 0, 0, 12];
    assert Be32(0x6674_7970) == [0x66, 0x74, 0x79, 0x70];
  }
}
