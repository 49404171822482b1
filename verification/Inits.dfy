/** What the scheduler's two choices achieve: where a live playlist is joined, and when init segments are fetched. */
module Inits {
  import opened Bytes
  import opened Text
  import opened Playlist
  import opened Schedule
  import opened Runs
  import opened PlayerSpec

  // ---- joining a live playlist

  /** The least number of segments, at least two, that last 45 seconds; 8 when no duration is announced. */
  predicate Backlog(target: nat, n: nat) {
    if target == 0 then n == 8
    else n >= 2 && n * target >= 45 && (n == 2 || (n - 1) * target < 45)
  }

  lemma BackIsBacklog(target: nat)
    ensures
      var back := if target > 0 then (45 + target - 1) / target else 8;
      Backlog(target, if back < 2 then 2 else back)
  {
    if target > 0 {
      var sum := 44 + target;
      var q, r := sum / target, sum % target;
      assert sum == q * target + r && r < target;
      assert q * target >= 45;
      assert (q - 1) * target == q * target - target;
      if q < 2 {
        assert 2 * target >= q * target;
      }
    }
  }

  /**
   * Joining: a playlist that is finished or lists at most two segments is played whole; otherwise exactly two
   * segments remain when it is small, and as many as make the backlog, or all, when it is big.
   */
  lemma JoinsNearTheEnd(m: Memory, info: Info, big: bool, uris: seq<string>) returns (back: nat)
    requires !m.haveLast && |uris| == info.nseg
    ensures Backlog(info.target, back)
    ensures
      |Plan(m, info, 0, JoinIndex(m, info, big), uris)| ==
      if info.endlist || info.nseg <= 2 then info.nseg
      else if !big then 2
      else if info.nseg > back then back else info.nseg
  {
    back := if info.target > 0 then (45 + info.target - 1) / info.target else 8;
    back := if back < 2 then 2 else back;
    BackIsBacklog(info.target);
    var first := JoinIndex(m, info, big);
    assert first <= info.nseg;
    if first < |uris| {
      NumberedLength(uris[first..], info.mediaSeq + first);
    }
  }

  /** A player that has played something goes on behind it, wherever it would join. */
  lemma JoinsBehindTheLast(m: Memory, info: Info, big: bool, idx: nat, uris: seq<string>)
    requires m.haveLast
    ensures Plan(m, info, idx, JoinIndex(m, info, big), uris) == Plan(m, info, idx, 0, uris)
  {
  }

  // ---- init segments

  /** The map that was initialised last with success: `start` before these requests. */
  function LastInit(start: string, reqs: seq<Request>): string {
    if reqs == [] then start
    else
      var last := reqs[|reqs| - 1];
      if last.Init? && last.outcome == Good then last.url else LastInit(start, reqs[..|reqs| - 1])
  }

  /** Every media segment is requested without a map or after its map was initialised, none other since. */
  ghost predicate Initialised(start: string, reqs: seq<Request>) {
    forall i :: 0 <= i < |reqs| && reqs[i].Media? && reqs[i].under != "" ==> LastInit(start, reqs[..i]) == reqs[i].under
  }

  /** The remembered map is the one initialised last, unless a discontinuity made the player forget it. */
  predicate Remembers(start: string, w: Walk) {
    w.mem.lastMap == "" || w.mem.lastMap == LastInit(start, w.reqs)
  }

  lemma LastInitSnoc(start: string, reqs: seq<Request>, r: Request)
    ensures LastInit(start, reqs + [r]) == if r.Init? && r.outcome == Good then r.url else LastInit(start, reqs)
  {
    assert (reqs + [r])[..|reqs|] == reqs;
  }

  lemma InitialisedSnoc(start: string, reqs: seq<Request>, r: Request)
    requires Initialised(start, reqs)
    requires r.Media? && r.under != "" ==> LastInit(start, reqs) == r.under
    ensures Initialised(start, reqs + [r])
  {
    var all := reqs + [r];
    assert all[..|reqs|] == reqs;
    assert forall i :: 0 <= i < |reqs| ==> all[..i] == reqs[..i];
  }

  /** When exactly an init segment is requested, and that the map is then initialised or the walk ends. */
  lemma InitExactly(start: string, w: Walk, disc: bool, a: Attempt)
    requires Initialised(start, w.reqs) && Remembers(start, w)
    ensures
      var (t, v) := FetchInit(w, disc, a);
      var needed := w.mem.mapUrl != "" && ((disc && w.mem.haveLast) || w.mem.mapUrl != w.mem.lastMap);
      && t.reqs == (if needed then w.reqs + [Init(w.mem.mapUrl, a.init)] else w.reqs)
      && (v.Going? <==> !needed || a.init == Good)
      && t.mem.mapUrl == w.mem.mapUrl && Initialised(start, t.reqs) && Remembers(start, t)
      && (v.Going? && t.mem.mapUrl != "" ==> LastInit(start, t.reqs) == t.mem.mapUrl)
  {
    LastInitSnoc(start, w.reqs, Init(w.mem.mapUrl, a.init));
    InitialisedSnoc(start, w.reqs, Init(w.mem.mapUrl, a.init));
    hide Initialised, LastInit;
  }

  lemma SegmentInits(start: string, w: Walk, disc: bool, seqNo: int, line: string)
    requires Initialised(start, w.reqs) && Remembers(start, w)
    ensures
      var t := FetchSegment(w, disc, seqNo, line).0;
      Initialised(start, t.reqs) && Remembers(start, t)
  {
    hide Initialised, LastInit, FetchInit;
    if w.script != [] && !w.script[0].stop && w.script[0].demux {
      var a, w0 := w.script[0], w.(script := w.script[1..]);
      InitExactly(start, w0, disc, a);
      InitKeeps(w0, disc, a);
      var (w1, v) := FetchInit(w0, disc, a);
      if v.Going? {
        InitialisedSnoc(start, w1.reqs, Media(seqNo, line, w1.mem.mapUrl));
        LastInitSnoc(start, w1.reqs, Media(seqNo, line, w1.mem.mapUrl));
      }
    }
  }

  /** Over a whole playlist, every media request follows the init segment of its map. */
  lemma {:induction false} WalkInits(start: string, resolve: Resolver, info: Info, first: nat, w: Walk, lines: seq<string>)
    requires Initialised(start, w.reqs) && Remembers(start, w)
    ensures
      var t := WalkLines(resolve, info, first, w, lines).0;
      Initialised(start, t.reqs) && Remembers(start, t)
    decreases |lines|
  {
    hide Initialised, LastInit, FetchSegment, WalkTag;
    if lines != [] {
      var line := lines[0];
      var (w1, v) := WalkLine(resolve, info, first, w, line);
      if IsTag(line) {
        TagKeeps(resolve, w, line);
      } else if line != "" && w.pending {
        SegmentInits(start, w.(idx := w.idx + 1, pending := false, disc := false), w.disc, info.mediaSeq + w.idx, line);
      }
      if v.Going? {
        WalkInits(start, resolve, info, first, w1, lines[1..]);
      }
    }
  }

  // ---- over whole runs

  /** The requests of a run of refreshes. */
  function RunRequests(resolve: Resolver, m: Memory, rs: seq<Refresh>): seq<Request>
    decreases |rs|
  {
    if rs == [] then []
    else
      var w := Play(resolve, m, rs[0]);
      w.reqs + RunRequests(resolve, w.mem, rs[1..])
  }

  lemma {:induction false} LastInitConcat(start: string, a: seq<Request>, b: seq<Request>)
    ensures LastInit(start, a + b) == LastInit(LastInit(start, a), b)
    decreases |b|
  {
    if b == [] {
      assert a + b == a;
    } else {
      LastInitConcat(start, a, b[..|b| - 1]);
      assert (a + b)[..|a + b| - 1] == a + b[..|b| - 1];
    }
  }

  lemma InitialisedConcat(start: string, a: seq<Request>, b: seq<Request>)
    requires Initialised(start, a) && Initialised(LastInit(start, a), b)
    ensures Initialised(start, a + b)
  {
    hide LastInit;
    forall i | 0 <= i < |a + b| && (a + b)[i].Media? && (a + b)[i].under != ""
      ensures LastInit(start, (a + b)[..i]) == (a + b)[i].under
    {
      if i < |a| {
        assert (a + b)[..i] == a[..i];
      } else {
        assert (a + b)[..i] == a + b[..i - |a|];
        LastInitConcat(start, a, b[..i - |a|]);
      }
    }
  }

  /**
   * In every run, whatever fails, each media request is made without a map or after the last successful init
   * request, which was for that same map.
   */
  lemma {:induction false} RunInits(start: string, resolve: Resolver, m: Memory, rs: seq<Refresh>)
    requires m.lastMap == "" || m.lastMap == start
    ensures Initialised(start, RunRequests(resolve, m, rs))
    decreases |rs|
  {
    hide Initialised, LastInit, Play;
    if rs == [] {
      NothingRequested(start);
    } else {
      var w := Play(resolve, m, rs[0]);
      PlayInits(start, resolve, m, rs[0]);
      RunInits(LastInit(start, w.reqs), resolve, w.mem, rs[1..]);
      InitialisedConcat(start, w.reqs, RunRequests(resolve, w.mem, rs[1..]));
    }
  }

  lemma NothingRequested(start: string)
    ensures Initialised(start, []) && LastInit(start, []) == start
  {
  }

  lemma PlayInits(start: string, resolve: Resolver, m: Memory, r: Refresh)
    requires m.lastMap == "" || m.lastMap == start
    ensures
      var w := Play(resolve, m, r);
      Initialised(start, w.reqs) && (w.mem.lastMap == "" || w.mem.lastMap == LastInit(start, w.reqs))
  {
    hide Initialised, LastInit, WalkLines, JoinIndex;
    NothingRequested(start);
    var info := InfoOf(r);
    var m1 := AfterRestart(m, info);
    WalkInits(start, resolve, info, JoinIndex(m1, info, r.big), StartWalk(m1, r.script), Lines(r.text));
  }

  // ---- over the control loop

  /** One round of the control loop. */
  lemma RoundInits(start: string, urls: UrlResolver, p: Player, r: Round)
    requires p.mem.lastMap == "" || p.mem.lastMap == start
    ensures
      var t := PlayRound(urls, p, r);
      Initialised(start, t.reqs) && (t.p.mem.lastMap == "" || t.p.mem.lastMap == LastInit(start, t.reqs))
  {
    hide Initialised, LastInit, PlayRound, Walks, Play, FetchManifest;
    RoundWalks(urls, p, r);
    PlayInits(start, Against(urls, p.url), p.mem, RefreshOf(p, r));
    NothingRequested(start);
  }

  lemma {:induction false} LoopInits(start: string, urls: UrlResolver, p: Player, rs: seq<Round>)
    requires p.mem.lastMap == "" || p.mem.lastMap == start
    ensures Initialised(start, PlayRounds(urls, p, rs).reqs)
    decreases |rs|
  {
    hide Initialised, LastInit, PlayRound;
    NothingRequested(start);
    if rs != [] {
      var t := PlayRound(urls, p, rs[0]);
      RoundInits(start, urls, p, rs[0]);
      if t.result.None? {
        LoopInits(LastInit(start, t.reqs), urls, t.p, rs[1..]);
        InitialisedConcat(start, t.reqs, PlayRounds(urls, t.p, rs[1..]).reqs);
      }
    }
  }

  /**
   * Whatever the network does in a run of the control loop, tail and full refreshes and master playlists included:
   * each media request is made without a map or after the last successful init request, which was for that same map.
   */
  lemma LiveInits(urls: UrlResolver, url: string, rs: seq<Round>)
    ensures Initialised("", PlayRounds(urls, Start(url), rs).reqs)
  {
    hide Initialised, PlayRounds;
    LoopInits("", urls, Start(url), rs);
  }

  // ---- discontinuities

  predicate IsDiscontinuity(line: string) {
    StartsWith(line, DISCONTINUITY) && !(|line| > |DISCONTINUITY| && line[|DISCONTINUITY|] == '-')
  }

  /** A discontinuity is remembered over any tags up to the next segment. */
  lemma {:induction false} DiscontinuityStays(resolve: Resolver, info: Info, first: nat, w: Walk, tags: seq<string>)
    requires forall l :: l in tags ==> IsTag(l)
    requires w.disc || exists l :: l in tags && IsDiscontinuity(l)
    ensures
      var (t, v) := WalkLines(resolve, info, first, w, tags);
      v == Going && t.disc && t.reqs == w.reqs && t.idx == w.idx && t.script == w.script
    decreases |tags|
  {
    if tags != [] {
      var t := WalkTag(resolve, w, tags[0]);
      TagKeeps(resolve, w, tags[0]);
      NotBoth(tags[0], DISCONTINUITY, MAP, 7);
      hide StartsWith, AttrUri;
      assert tags[0] in tags;
      if !t.disc {
        var l :| l in tags && IsDiscontinuity(l);
        assert l != tags[0];
        assert l in tags[1..];
      }
      DiscontinuityStays(resolve, info, first, t, tags[1..]);
    }
  }

  /** A new segment behind a discontinuity asks for the init segment again, even if its map has not changed. */
  lemma DiscontinuityForcesInit(resolve: Resolver, info: Info, first: nat, w: Walk, tags: seq<string>, line: string)
    requires (forall l :: l in tags ==> IsTag(l)) && (w.disc || exists l :: l in tags && IsDiscontinuity(l))
    requires
      var t := WalkLines(resolve, info, first, w, tags).0;
      && !IsTag(line) && line != "" && t.pending
      && t.mem.haveLast && info.mediaSeq + w.idx > t.mem.lastSeq && t.mem.mapUrl != ""
    requires w.script != [] && !w.script[0].stop && w.script[0].demux
    ensures
      var t := WalkLines(resolve, info, first, w, tags).0;
      w.reqs + [Init(t.mem.mapUrl, w.script[0].init)] <= WalkLine(resolve, info, first, t, line).0.reqs
  {
    hide WalkLines, IsDiscontinuity, IsTag, FetchSegment, StartsWith;
    DiscontinuityStays(resolve, info, first, w, tags);
    var t := WalkLines(resolve, info, first, w, tags).0;
    assert Wanted(t.mem, info.mediaSeq + t.idx, t.idx, first);
    var skipped := t.(idx := t.idx + 1, pending := false, disc := false);
    assert WalkLine(resolve, info, first, t, line) == FetchSegment(skipped, true, info.mediaSeq + t.idx, line);
    hide WalkLine;
    InitComesFirst(skipped, info.mediaSeq + t.idx, line);
  }

  lemma InitComesFirst(w: Walk, seqNo: int, line: string)
    requires w.script != [] && !w.script[0].stop && w.script[0].demux && w.mem.haveLast && w.mem.mapUrl != ""
    ensures w.reqs + [Init(w.mem.mapUrl, w.script[0].init)] <= FetchSegment(w, true, seqNo, line).0.reqs
  {
  }
}
