/**
 * The scheduler and the demuxer together: which configuration a media segment is fed with. The scheduler remembers
 * the map it initialised last; the demuxer keeps what any init download has made of its configuration.
 */
module Configs {
  import opened Bytes
  import opened Machine
  import opened Fmp4Spec
  import opened Fmp4Theorems
  import opened Fmp4Init
  import opened Inits
  import opened PlayerSpec
  import S = Schedule
  import P = Playlist
  import T = Text

  /** A request and the network reads it delivered to the demuxer. */
  datatype Transfer = Transfer(req: S.Request, pieces: seq<seq<byte>>)

  function Requests(log: seq<Transfer>): (rs: seq<S.Request>)
    ensures |rs| == |log| && forall i :: 0 <= i < |log| ==> rs[i] == log[i].req
  {
    seq(|log|, i requires 0 <= i < |log| => log[i].req)
  }

  predicate GoodInit(d: Transfer) { d.req.Init? && d.req.outcome == S.Good }

  predicate Mapped(d: Transfer) { d.req.Media? && d.req.under != "" }

  /** What a transfer makes of the configuration: init segments are fed read by read, media as one stream. */
  function After(rd: MoovReader, cfg: Config, d: Transfer): Config {
    if d.req.Init? then InitReads(rd, cfg, d.pieces).0 else Feed(Demuxer(rd), Reset(cfg), Flatten(d.pieces)).st.cfg
  }

  function CfgAfter(rd: MoovReader, cfg: Config, log: seq<Transfer>): Config {
    if log == [] then cfg else After(rd, CfgAfter(rd, cfg, log[..|log| - 1]), log[|log| - 1])
  }

  /** How many transfers there are up to the last successful init; 0 without one. */
  function LastGood(log: seq<Transfer>): (n: nat)
    ensures n <= |log| && (n > 0 ==> GoodInit(log[n - 1]))
    ensures forall j :: n <= j < |log| ==> !GoodInit(log[j])
  {
    if log == [] then 0 else if GoodInit(log[|log| - 1]) then |log| else LastGood(log[..|log| - 1])
  }

  /** The configuration the last successful init left. */
  function MadeLast(rd: MoovReader, cfg: Config, log: seq<Transfer>): Config {
    CfgAfter(rd, cfg, log[..LastGood(log)])
  }

  /** A transfer other than a successful init that changes the configuration. */
  predicate Disturbs(rd: MoovReader, cfg: Config, log: seq<Transfer>, j: nat)
    requires j < |log|
  {
    !GoodInit(log[j]) && CfgAfter(rd, cfg, log[..j + 1]) != CfgAfter(rd, cfg, log[..j])
  }

  /** The last successful init of the log is the last one among its requests. */
  lemma {:induction false} LastInitIs(log: seq<Transfer>)
    ensures LastInit("", Requests(log)) == if LastGood(log) == 0 then "" else log[LastGood(log) - 1].req.url
    decreases |log|
  {
    if log == [] {
      assert Requests(log) == [];
    } else {
      var most, last := log[..|log| - 1], log[|log| - 1];
      LastInitIs(most);
      RequestsSnoc(log);
      LastInitSnoc("", Requests(most), last.req);
      hide LastInit, Requests;
    }
  }

  lemma RequestsSnoc(log: seq<Transfer>)
    requires log != []
    ensures Requests(log) == Requests(log[..|log| - 1]) + [log[|log| - 1].req]
  {
  }

  // ---- when a segment is fed with the configuration of its map

  /** Nothing disturbs the configuration between two points of the log. */
  lemma {:induction false} Steady(rd: MoovReader, cfg: Config, log: seq<Transfer>, from: nat, end: nat)
    requires from <= end <= |log|
    requires forall j :: from <= j < end ==> !GoodInit(log[j]) && !Disturbs(rd, cfg, log, j)
    ensures CfgAfter(rd, cfg, log[..end]) == CfgAfter(rd, cfg, log[..from])
    decreases end
  {
    hide CfgAfter;
    if from < end {
      Steady(rd, cfg, log, from, end - 1);
      assert !Disturbs(rd, cfg, log, end - 1);
    }
  }

  /**
   * Exactly when: of the transfers since the last successful init let all but transfer `j` leave the configuration
   * alone. Then the next one is fed with what that init left if and only if `j` leaves it alone too.
   */
  lemma FedExactly(rd: MoovReader, cfg: Config, log: seq<Transfer>, j: nat)
    requires LastGood(log) <= j < |log|
    requires forall k :: LastGood(log) <= k < |log| && k != j ==> !Disturbs(rd, cfg, log, k)
    ensures CfgAfter(rd, cfg, log) == MadeLast(rd, cfg, log) <==> !Disturbs(rd, cfg, log, j)
  {
    hide CfgAfter, LastGood, GoodInit;
    assert !GoodInit(log[j]);
    assert Disturbs(rd, cfg, log, j) <==> CfgAfter(rd, cfg, log[..j + 1]) != CfgAfter(rd, cfg, log[..j]);
    hide Disturbs;
    Steady(rd, cfg, log, LastGood(log), j);
    Steady(rd, cfg, log, j + 1, |log|);
    assert log[..|log|] == log;
  }

  /** With nothing to disturb it, the configuration is the one the last successful init left. */
  lemma FedRight(rd: MoovReader, cfg: Config, log: seq<Transfer>)
    requires forall k :: LastGood(log) <= k < |log| ==> !Disturbs(rd, cfg, log, k)
    ensures CfgAfter(rd, cfg, log) == MadeLast(rd, cfg, log)
  {
    hide CfgAfter, LastGood, GoodInit;
    Steady(rd, cfg, log, LastGood(log), |log|);
    assert log[..|log|] == log;
  }

  // ---- what disturbs it

  /** An init segment in the delivered bytes: its moov, and what stands in front of it and behind. */
  datatype Content = Content(pre: seq<byte>, moov: seq<byte>, wide: bool, post: seq<byte>)

  ghost predicate Holds(c: Content, pieces: seq<seq<byte>>) {
    OneMoov(c.pre, c.moov, c.wide, c.post) && Flatten(pieces) == c.pre + MoovCode(c.moov, c.wide) + c.post
  }

  /** The reads adopt it from this configuration. */
  ghost predicate Adopts(rd: MoovReader, cfg: Config, c: Content, pieces: seq<seq<byte>>) {
    OneMoov(c.pre, c.moov, c.wide, c.post) && Adopted(rd, cfg, pieces, |c.pre|, |MoovCode(c.moov, c.wide)|)
  }

  /** An init download that ends badly disturbs the configuration exactly if it adopts a different one before. */
  lemma FailedInitDisturbs(rd: MoovReader, cfg: Config, log: seq<Transfer>, j: nat, c: Content)
    requires j < |log| && log[j].req.Init? && log[j].req.outcome != S.Good && Holds(c, log[j].pieces)
    ensures
      var before := CfgAfter(rd, cfg, log[..j]);
      Disturbs(rd, cfg, log, j) <==> Adopts(rd, before, c, log[j].pieces) && rd(before, c.moov) != before
  {
    CfgNext(rd, cfg, log, j);
    hide CfgAfter, Adopted, OneMoov, Flatten, InitReads;
    InitReadsExact(rd, CfgAfter(rd, cfg, log[..j]), c.pre, c.moov, c.wide, c.post, log[j].pieces);
  }

  lemma CfgNext(rd: MoovReader, cfg: Config, log: seq<Transfer>, j: nat)
    requires j < |log|
    ensures CfgAfter(rd, cfg, log[..j + 1]) == After(rd, CfgAfter(rd, cfg, log[..j]), log[j])
  {
    assert log[..j + 1][..j] == log[..j];
    hide After;
  }

  /** Transfers that nowhere hold the letters of a moov leave the configuration alone, whatever else they hold. */
  lemma NoMoovKeeps(rd: MoovReader, cfg: Config, log: seq<Transfer>, j: nat)
    requires j < |log| && MoovOnlyAt(Flatten(log[j].pieces), 0)
    ensures CfgAfter(rd, cfg, log[..j + 1]) == CfgAfter(rd, cfg, log[..j]) && !Disturbs(rd, cfg, log, j)
  {
    CfgNext(rd, cfg, log, j);
    hide CfgAfter, MoovOnlyAt, Feed, Flatten, InitReads;
    var before := CfgAfter(rd, cfg, log[..j]);
    KeepsOn(rd, before, log[j].pieces, Flatten(log[j].pieces));
    KeepsConfig(rd, before, Flatten(log[j].pieces), -4);
  }

  // ---- over runs of the control loop

  /** The transfers of a run, with nothing but successful inits changing the configuration. */
  ghost predicate Undisturbed(rd: MoovReader, cfg: Config, log: seq<Transfer>) {
    forall j :: 0 <= j < |log| ==> !Disturbs(rd, cfg, log, j)
  }

  /** Transfer `i` is fed with the configuration that a successful init of its map, `g`, has left. */
  ghost predicate FedFrom(rd: MoovReader, cfg: Config, log: seq<Transfer>, g: nat, i: nat) {
    && g < i < |log| && log[i].req.Media? && log[g].req == S.Init(log[i].req.under, S.Good)
    && CfgAfter(rd, cfg, log[..i]) == CfgAfter(rd, cfg, log[..g + 1])
  }

  lemma DisturbsPrefix(rd: MoovReader, cfg: Config, log: seq<Transfer>, i: nat, j: nat)
    requires j < i <= |log|
    ensures Disturbs(rd, cfg, log[..i], j) == Disturbs(rd, cfg, log, j)
  {
    assert log[..i][..j + 1] == log[..j + 1] && log[..i][..j] == log[..j];
    hide CfgAfter;
  }

  /**
   * In every run in which only successful init downloads change the configuration, each media segment under a map is
   * fed to a demuxer configured by the init segment of that map.
   */
  lemma LiveConfigured(rd: MoovReader, cfg: Config, urls: UrlResolver, url: string, rs: seq<Round>, log: seq<Transfer>,
                       i: nat) returns (g: nat)
    requires Requests(log) == PlayRounds(urls, Start(url), rs).reqs && Undisturbed(rd, cfg, log)
    requires i < |log| && Mapped(log[i])
    ensures FedFrom(rd, cfg, log, g, i)
  {
    hide CfgAfter, LastGood, LastInit, PlayRounds, Disturbs;
    LiveInits(urls, url, rs);
    var part := log[..i];
    assert Requests(log)[..i] == Requests(part);
    LastInitIs(part);
    forall k | LastGood(part) <= k < |part| ensures !Disturbs(rd, cfg, part, k) {
      DisturbsPrefix(rd, cfg, log, i, k);
    }
    FedRight(rd, cfg, part);
    assert Requests(log)[i] == log[i].req;
    g := LastGood(part) - 1;
    assert part[..g + 1] == log[..g + 1];
  }

  /** And that is the configuration in the init segment exactly if its reads adopted it. */
  lemma ConfiguredExactly(rd: MoovReader, cfg: Config, log: seq<Transfer>, g: nat, i: nat, c: Content)
    requires FedFrom(rd, cfg, log, g, i) && Holds(c, log[g].pieces)
    ensures
      var before := CfgAfter(rd, cfg, log[..g]);
      CfgAfter(rd, cfg, log[..i]) == if Adopts(rd, before, c, log[g].pieces) then rd(before, c.moov) else before
  {
    CfgNext(rd, cfg, log, g);
    hide CfgAfter, Adopted, OneMoov, Flatten, InitReads;
    InitReadsExact(rd, CfgAfter(rd, cfg, log[..g]), c.pre, c.moov, c.wide, c.post, log[g].pieces);
  }

  // ---- a run in which a segment is fed with the configuration of another map

  /** A playlist of one segment under a map. */
  function OneUnder(tag: string, uri: string): seq<string> { [tag, P.EXTINF, uri] }

  predicate Announces(resolve: S.Resolver, tag: string, url: string) {
    && P.IsTag(tag) && T.StartsWith(tag, P.MAP) && S.AttrUri(tag).Some? && resolve(S.AttrUri(tag).value) == url
  }

  /** Every map can be announced. */
  lemma TagAnnounces(resolve: S.Resolver, uri: string)
    requires '"' !in uri && |uri| < P.URL_MAX
    ensures Announces(resolve, S.MapTag(uri), resolve(uri))
  {
    var tag := S.MapTag(uri);
    S.MapTagRead(uri);
    assert tag[..|P.MAP|] == P.MAP;
    hide S.AttrUri;
    assert tag[0] == '#';
  }

  /** A walk over such a playlist stands before its segment. */
  lemma BeforeSegment(resolve: S.Resolver, info: P.Info, first: nat, m: S.Memory, script: seq<S.Attempt>, tag: string,
                      uri: string, url: string)
    requires Announces(resolve, tag, url) && uri != "" && !P.IsTag(uri)
    ensures
      var w := S.Walk(0, true, false, m.(mapUrl := url), script, [], []);
      S.WalkLines(resolve, info, first, S.StartWalk(m, script), OneUnder(tag, uri)) == S.WalkLine(resolve, info, first, w, uri)
  {
    P.NotBoth(tag, P.MAP, P.EXTINF, 4);
    InfIsNoMap();
    hide T.StartsWith, S.AttrUri, S.FetchSegment, S.Wanted;
    var lines := OneUnder(tag, uri);
    assert lines[1..] == [P.EXTINF, uri] && lines[1..][1..] == [uri] && [uri][1..] == [];
    var w0 := S.StartWalk(m, script);
    var w1 := w0.(mem := m.(mapUrl := url));
    var w2 := w1.(pending := true);
    assert S.WalkLine(resolve, info, first, w0, tag) == (w1, S.Going);
    assert S.WalkLine(resolve, info, first, w1, P.EXTINF) == (w2, S.Going);
    hide S.WalkLine, S.WalkLines;
    FirstLineOf(resolve, info, first, w0, lines);
    FirstLineOf(resolve, info, first, w1, lines[1..]);
    LastLineOf(resolve, info, first, w2, uri);
  }

  lemma FirstLineOf(resolve: S.Resolver, info: P.Info, first: nat, w: S.Walk, lines: seq<string>)
    requires lines != []
    ensures
      var (w1, v) := S.WalkLine(resolve, info, first, w, lines[0]);
      v.Going? ==> S.WalkLines(resolve, info, first, w, lines) == S.WalkLines(resolve, info, first, w1, lines[1..])
  {
    hide S.WalkLine;
  }

  lemma LastLineOf(resolve: S.Resolver, info: P.Info, first: nat, w: S.Walk, line: string)
    ensures S.WalkLines(resolve, info, first, w, [line]) == S.WalkLine(resolve, info, first, w, line)
  {
    hide S.WalkLine;
  }

  lemma InfIsNoMap()
    ensures P.IsTag(P.EXTINF) && T.StartsWith(P.EXTINF, P.EXTINF)
    ensures !T.StartsWith(P.EXTINF, P.MAP) && !T.StartsWith(P.EXTINF, P.DISCONTINUITY)
  {
    assert P.EXTINF[..|P.EXTINF|] == P.EXTINF;
    P.NotBoth(P.EXTINF, P.EXTINF, P.MAP, 4);
    P.NotBoth(P.EXTINF, P.EXTINF, P.DISCONTINUITY, 4);
  }

  /** The init download of a new map fails: the scheduler keeps the old one in mind. */
  lemma InitFails(resolve: S.Resolver, info: P.Info, first: nat, m: S.Memory, a: S.Attempt, tag: string, uri: string, url: string)
    requires Announces(resolve, tag, url) && uri != "" && !P.IsTag(uri) && url != "" && url != m.lastMap
    requires m.haveLast && m.lastSeq < info.mediaSeq && !a.stop && a.demux && a.init == S.Bad
    ensures
      var (w, v) := S.WalkLines(resolve, info, first, S.StartWalk(m, [a]), OneUnder(tag, uri));
      v == S.Error && w.reqs == [S.Init(url, S.Bad)] && w.mem == m.(mapUrl := url)
  {
    BeforeSegment(resolve, info, first, m, [a], tag, uri, url);
    hide S.WalkLines, Announces;
  }

  /** The map it has in mind is not initialised again. */
  lemma InitSkipped(resolve: S.Resolver, info: P.Info, first: nat, m: S.Memory, a: S.Attempt, tag: string, uri: string, url: string)
    requires Announces(resolve, tag, url) && uri != "" && !P.IsTag(uri) && url == m.lastMap
    requires m.haveLast && m.lastSeq < info.mediaSeq && !a.stop && a.demux && a.url
    ensures
      var w := S.WalkLines(resolve, info, first, S.StartWalk(m, [a]), OneUnder(tag, uri)).0;
      w.reqs == [S.Media(info.mediaSeq, uri, url)]
  {
    BeforeSegment(resolve, info, first, m, [a], tag, uri, url);
    hide S.WalkLines, Announces;
  }

  /**
   * Finding: two refreshes after segments under map `a`. The first lists a segment under map `b`, whose init download
   * breaks off behind its moov. The second lists only a later segment under `a`, and no discontinuity. The scheduler
   * feeds it without initialising `a` again, to a demuxer that is configured for `b`.
   */
  lemma WrongConfiguration(rd: MoovReader, cfg: Config, resolve: S.Resolver, one: P.Info, two: P.Info, m: S.Memory,
                           bad: S.Attempt, good: S.Attempt, tagA: string, tagB: string, uri1: string, uri2: string,
                           b: string, initA: seq<seq<byte>>, moov: seq<byte>, media: seq<seq<byte>>)
    requires m.lastMap != "" && Announces(resolve, tagA, m.lastMap) && Announces(resolve, tagB, b) && b !in {"", m.lastMap}
    requires uri1 != "" && !P.IsTag(uri1) && uri2 != "" && !P.IsTag(uri2)
    requires m.haveLast && m.lastSeq < one.mediaSeq && m.lastSeq < two.mediaSeq
    requires !bad.stop && bad.demux && bad.init == S.Bad && !good.stop && good.demux && good.url
    requires OneMoov([], moov, false, []) && rd(InitReads(rd, cfg, initA).0, moov) != InitReads(rd, cfg, initA).0
    ensures
      var w1 := S.WalkLines(resolve, one, 0, S.StartWalk(m, [bad]), OneUnder(tagB, uri1)).0;
      var w2 := S.WalkLines(resolve, two, 0, S.StartWalk(w1.mem, [good]), OneUnder(tagA, uri2)).0;
      var reqs := [S.Init(m.lastMap, S.Good)] + w1.reqs + w2.reqs;
      && reqs == [S.Init(m.lastMap, S.Good), S.Init(b, S.Bad), S.Media(two.mediaSeq, uri2, m.lastMap)]
      && var log := [Transfer(reqs[0], initA), Transfer(reqs[1], [MoovCode(moov, false)]), Transfer(reqs[2], media)];
      && CfgAfter(rd, cfg, log[..2]) == rd(MadeLast(rd, cfg, log[..2]), moov) != MadeLast(rd, cfg, log[..2])
  {
    InitFails(resolve, one, 0, m, bad, tagB, uri1, b);
    InitSkipped(resolve, two, 0, m.(mapUrl := b), good, tagA, uri2, m.lastMap);
    hide S.WalkLines, Announces;
    var first, second := Transfer(S.Init(m.lastMap, S.Good), initA), Transfer(S.Init(b, S.Bad), [MoovCode(moov, false)]);
    TwoInits(rd, cfg, first, second, moov);
    var third := Transfer(S.Media(two.mediaSeq, uri2, m.lastMap), media);
    assert [first, second, third][..2] == [first, second];
  }

  lemma TwoInits(rd: MoovReader, cfg: Config, first: Transfer, second: Transfer, moov: seq<byte>)
    requires OneMoov([], moov, false, [])
    requires GoodInit(first) && second.req.Init? && !GoodInit(second) && second.pieces == [MoovCode(moov, false)]
    ensures
      var log, made := [first, second], InitReads(rd, cfg, first.pieces).0;
      MadeLast(rd, cfg, log) == made && CfgAfter(rd, cfg, log) == rd(made, moov)
  {
    hide InitReads, MoovCode, OneMoov;
    var log, made := [first, second], InitReads(rd, cfg, first.pieces).0;
    assert log[..1] == [first] && [first][..0] == [];
    WholeMoovAdopts(rd, made, moov);
    CfgNext(rd, cfg, log, 0);
    CfgNext(rd, cfg, log, 1);
    assert log[..2] == log && log[..0] == [];
  }

  /** A read that is just a moov is adopted. */
  lemma WholeMoovAdopts(rd: MoovReader, cfg: Config, moov: seq<byte>)
    requires OneMoov([], moov, false, [])
    ensures InitReads(rd, cfg, [MoovCode(moov, false)]).0 == rd(cfg, moov)
  {
    var code := MoovCode(moov, false);
    hide MoovCode, InitReads, OneMoov, Feed, Flatten;
    FlattenOne(code);
    assert [] + code + [] == code;
    InitReadsExact(rd, cfg, [], moov, false, [], [code]);
    FeedNone(Demuxer(rd), Reset(cfg));
    assert code[..0] == [];
  }
}
