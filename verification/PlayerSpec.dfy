/** The control loop of the player (hls_play) as a function of what the network does in each round. */
module PlayerSpec {
  import opened Bytes
  import opened Text
  import opened Playlist
  import opened Schedule
  import opened Runs
  import opened Tail

  const TAIL_MIN := 12000

  /** How a manifest download ends and what it has left in the buffer, which keeps room for a final NUL. */
  datatype Download = Download(rc: Outcome, body: string)

  predicate Fits(d: Download) { |d.body| < MANIFEST_MAX }

  /** Everything the environment does in one turn of the loop. */
  datatype Round = Round(stop: bool, tail: Download, full: Download, memory: bool, variant: bool, script: seq<Attempt>)

  datatype Result = StoppedByUser | Ended | Failed

  /** Resolves a reference against the URL of a playlist. */
  type UrlResolver = (string, string) -> string

  function Against(urls: UrlResolver, base: string): Resolver {
    (rel: string) => urls(base, rel)
  }

  /** What the player keeps between rounds; `url` is that of the playlist, which a master playlist replaces. */
  datatype Player = Player(mem: Memory, target: nat, big: bool, errors: nat, url: string)

  function Start(url: string): Player {
    Player(Memory(false, 0, "", "", ""), 0, false, 0, url)
  }

  /** hls_is_manifest. */
  predicate IsManifest(t: string) {
    Contains(t, "#EXTM3U")
    && (Contains(t, "#EXT-X-TARGETDURATION") || Contains(t, "#EXT-X-STREAM-INF")
        || Contains(t, "#EXT-X-MEDIA-SEQUENCE") || Contains(t, "#EXT-X-VERSION"))
  }

  /** A downloaded body as a C string: what lies behind a NUL is not seen. */
  function Seen(body: string): string { CStr(body + [NUL], 0) }

  /** The manifest of a round: its text, how the download ended, and the size that decides about tail refreshes. */
  datatype Manifest = Manifest(rc: Outcome, text: string, big: bool)

  function FullManifest(d: Download): Manifest {
    Manifest(d.rc, Seen(d.body), |d.body| > TAIL_MIN)
  }

  predicate WantsTail(p: Player) { p.big && p.mem.haveLast && p.mem.lastUri != "" }

  function FetchManifest(p: Player, r: Round): Manifest {
    if !WantsTail(p) then FullManifest(r.full)
    else if r.tail.rc == Stop then Manifest(Stop, "", p.big)
    else
      match Spliced(Seen(r.tail.body), p.mem.lastUri, p.target, p.mem.lastSeq)
      case Some(text) => if r.tail.rc == Good then Manifest(Good, text, p.big) else FullManifest(r.full)
      case None => FullManifest(r.full)
  }

  /** The end of a round: the player's new state, what was completed and requested, and the result if the loop ends. */
  datatype Turn = Turn(p: Player, done: seq<Segment>, reqs: seq<Request>, result: Option<Result>)

  function Retry(p: Player, limit: nat): Turn {
    Turn(p.(errors := p.errors + 1), [], [], if p.errors + 1 >= limit then Some(Failed) else None)
  }

  /** A media playlist. */
  function PlayMedia(urls: UrlResolver, p: Player, info: Info, text: string, script: seq<Attempt>): Turn {
    var (w, v) := Process(Against(urls, p.url), p.mem, p.big, info, text, script);
    var q := p.(mem := w.mem);
    match v
    case Stopped => Turn(q, w.done, w.reqs, Some(StoppedByUser))
    case Error => Retry(q, 4).(done := w.done, reqs := w.reqs)
    case Going => Turn(q.(errors := 0), w.done, w.reqs, if info.endlist && w.done == [] then Some(Ended) else None)
  }

  function PlayText(urls: UrlResolver, p: Player, r: Round, text: string): Turn {
    var info := Analysis(text);
    var q := if info.target > 0 then p.(target := info.target) else p;
    if info.master then
      if r.variant then Retry(q.(url := urls(q.url, info.variant)), 5) else Turn(q, [], [], Some(Failed))
    else if info.unsupported then Turn(q, [], [], Some(Failed))
    else PlayMedia(urls, q, info, text, r.script)
  }

  function PlayRound(urls: UrlResolver, p: Player, r: Round): Turn {
    if r.stop then Turn(p, [], [], Some(StoppedByUser))
    else
      var m := FetchManifest(p, r);
      if m.rc == Stop then Turn(p, [], [], Some(StoppedByUser))
      else
        var q := p.(big := m.big);
        if m.rc == Bad || !IsManifest(m.text) then Retry(q, 6)
        else if !r.memory then Turn(q, [], [], Some(Failed))
        else PlayText(urls, q, r, m.text)
  }

  /** A run: rounds until the loop ends. */
  function PlayRounds(urls: UrlResolver, p: Player, rs: seq<Round>): Turn
    decreases |rs|
  {
    if rs == [] then Turn(p, [], [], None)
    else
      var t := PlayRound(urls, p, rs[0]);
      if t.result.Some? then t
      else
        var u := PlayRounds(urls, t.p, rs[1..]);
        u.(done := t.done + u.done, reqs := t.reqs + u.reqs)
  }

  // ---- the rounds that walk a playlist

  /** The round gets as far as the segments of a media playlist. */
  predicate Walks(p: Player, r: Round) {
    var m := FetchManifest(p, r);
    && !r.stop && r.memory && m.rc == Good && IsManifest(m.text)
    && !Analysis(m.text).master && !Analysis(m.text).unsupported
  }

  /** The playlist it walks then, as one refresh. */
  function RefreshOf(p: Player, r: Round): Refresh {
    Refresh(FetchManifest(p, r).text, FetchManifest(p, r).big, r.script)
  }

  /** A round that walks no playlist changes nothing the player remembers; one that does walks it as a refresh. */
  lemma RoundWalks(urls: UrlResolver, p: Player, r: Round)
    ensures
      var t, w := PlayRound(urls, p, r), Play(Against(urls, p.url), p.mem, RefreshOf(p, r));
      if Walks(p, r) then t.done == w.done && t.reqs == w.reqs && t.p.mem == w.mem && t.p.url == p.url
      else t.done == [] && t.reqs == [] && t.p.mem == p.mem
  {
    hide Analysis, IsManifest, FetchManifest, Process;
  }

  // ---- bounded retries

  /** The round walks a media playlist to its end. */
  predicate Complete(urls: UrlResolver, p: Player, r: Round) {
    var m := FetchManifest(p, r);
    Walks(p, r) && Process(Against(urls, p.url), p.mem, m.big, Analysis(m.text), m.text, r.script).1 == Going
  }

  /** What an attempt costs: nothing is owed after a completed playlist, and one more retry after anything else. */
  predicate Costs(errors: nat, completed: bool, t: Turn) {
    && t.p.errors <= 6
    && (t.result.None? ==> t.p.errors <= 5)
    && (t.result.None? ==> t.p.errors == if completed then 0 else errors + 1)
  }

  lemma MediaCosts(urls: UrlResolver, p: Player, info: Info, text: string, script: seq<Attempt>)
    requires p.errors <= 5
    ensures
      var completed := Process(Against(urls, p.url), p.mem, p.big, info, text, script).1 == Going;
      Costs(p.errors, completed, PlayMedia(urls, p, info, text, script))
  {
    hide Process;
  }

  lemma TextCosts(urls: UrlResolver, p: Player, r: Round, text: string)
    requires p.errors <= 5
    ensures
      var info := Analysis(text);
      var completed := !info.master && !info.unsupported
        && Process(Against(urls, p.url), p.mem, p.big, info, text, r.script).1 == Going;
      Costs(p.errors, completed, PlayText(urls, p, r, text))
  {
    hide Process, Analysis, PlayMedia;
    var info := Analysis(text);
    MediaCosts(urls, if info.target > 0 then p.(target := info.target) else p, info, text, r.script);
  }

  /** A round that does not complete a playlist and does not end the loop uses up one of the retries. */
  lemma IncompleteCosts(urls: UrlResolver, p: Player, r: Round)
    requires p.errors <= 5
    ensures
      var t := PlayRound(urls, p, r);
      && t.p.errors <= 6
      && (t.result.None? ==> t.p.errors <= 5)
      && (t.result.None? ==> t.p.errors == if Complete(urls, p, r) then 0 else p.errors + 1)
  {
    hide Process, Analysis, IsManifest, FetchManifest, PlayText;
    TextCosts(urls, p.(big := FetchManifest(p, r).big), r, FetchManifest(p, r).text);
  }

  /** No round of a run completes a playlist. */
  ghost predicate NoneCompletes(urls: UrlResolver, p: Player, rs: seq<Round>)
    decreases |rs|
  {
    rs == [] || (!Complete(urls, p, rs[0]) && NoneCompletes(urls, PlayRound(urls, p, rs[0]).p, rs[1..]))
  }

  /** Six rounds in a row without a completed media playlist end the run. */
  lemma {:induction false} RetriesAreBounded(urls: UrlResolver, p: Player, rs: seq<Round>)
    requires p.errors <= 5 && NoneCompletes(urls, p, rs)
    ensures PlayRounds(urls, p, rs).result.None? ==> |rs| <= 5 - p.errors
    decreases |rs|
  {
    if rs != [] {
      hide PlayRound, Complete;
      IncompleteCosts(urls, p, rs[0]);
      var t := PlayRound(urls, p, rs[0]);
      if t.result.None? {
        RetriesAreBounded(urls, t.p, rs[1..]);
      }
    }
  }

  /** A run in two stretches. */
  lemma {:induction false} RoundsSplit(urls: UrlResolver, p: Player, a: seq<Round>, b: seq<Round>)
    ensures
      var t := PlayRounds(urls, p, a);
      PlayRounds(urls, p, a + b) ==
      if t.result.Some? then t
      else
        var u := PlayRounds(urls, t.p, b);
        u.(done := t.done + u.done, reqs := t.reqs + u.reqs)
    decreases |a|
  {
    hide PlayRound;
    if a == [] {
      assert a + b == b;
      var u := PlayRounds(urls, p, b);
      assert [] + u.done == u.done && [] + u.reqs == u.reqs;
    } else {
      var t := PlayRound(urls, p, a[0]);
      assert (a + b)[0] == a[0] && (a + b)[1..] == a[1..] + b;
      if t.result.None? {
        RoundsSplit(urls, t.p, a[1..], b);
        var v := PlayRounds(urls, t.p, a[1..]);
        var u := PlayRounds(urls, v.p, b);
        assert t.done + (v.done + u.done) == t.done + v.done + u.done;
        assert t.reqs + (v.reqs + u.reqs) == t.reqs + v.reqs + u.reqs;
      }
    }
  }

  lemma {:induction false} ErrorsStayLow(urls: UrlResolver, p: Player, rs: seq<Round>)
    requires p.errors <= 5
    ensures PlayRounds(urls, p, rs).result.None? ==> PlayRounds(urls, p, rs).p.errors <= 5
    decreases |rs|
  {
    if rs != [] {
      hide PlayRound, Complete;
      IncompleteCosts(urls, p, rs[0]);
      var t := PlayRound(urls, p, rs[0]);
      if t.result.None? {
        ErrorsStayLow(urls, t.p, rs[1..]);
      }
    }
  }

  /**
   * In every run, anywhere in it: a stretch of rounds in which no media playlist is completed and which does not
   * end the run has at most five rounds; the sixth ends it.
   */
  lemma SixRoundsAtMost(urls: UrlResolver, url: string, a: seq<Round>, b: seq<Round>)
    requires PlayRounds(urls, Start(url), a + b).result.None?
    requires NoneCompletes(urls, PlayRounds(urls, Start(url), a).p, b)
    ensures |b| <= 5
  {
    hide PlayRounds, NoneCompletes;
    RoundsSplit(urls, Start(url), a, b);
    ErrorsStayLow(urls, Start(url), a);
    RetriesAreBounded(urls, PlayRounds(urls, Start(url), a).p, b);
  }

  // ---- a finished playlist is played once, then the run ends

  /** A line that makes a playlist unsupported. */
  predicate Unsupported(line: string) {
    (StartsWith(line, KEY) && !Contains(line, "METHOD=NONE")) || StartsWith(line, RANGE)
  }

  lemma OneFlag(a: Scan, line: string)
    ensures var b := ScanLine(a, line);
            && (b.info.endlist <==> a.info.endlist || line == ENDLIST)
            && (b.info.master <==> a.info.master || StartsWith(line, STREAM))
            && (b.info.unsupported <==> a.info.unsupported || Unsupported(line))
  {
    hide Contains;
    NotBoth(line, TARGET, SEQUENCE, 7);
    NotBoth(line, TARGET, STREAM, 7);
    NotBoth(line, TARGET, KEY, 7);
    NotBoth(line, TARGET, RANGE, 7);
    NotBoth(line, SEQUENCE, STREAM, 7);
    NotBoth(line, SEQUENCE, KEY, 7);
    NotBoth(line, SEQUENCE, RANGE, 7);
    NotBoth(line, STREAM, KEY, 7);
    NotBoth(line, STREAM, RANGE, 7);
    NotBoth(line, KEY, RANGE, 7);
    TagHead(line);
    if line == ENDLIST {
      assert StartsWith(line, ENDLIST) by { assert line[..|ENDLIST|] == line; }
      NotBoth(line, ENDLIST, TARGET, 7);
      NotBoth(line, ENDLIST, SEQUENCE, 7);
      NotBoth(line, ENDLIST, STREAM, 7);
      NotBoth(line, ENDLIST, KEY, 7);
      NotBoth(line, ENDLIST, RANGE, 7);
    }
  }

  lemma TagHead(line: string)
    ensures StartsWith(line, STREAM) || StartsWith(line, KEY) || StartsWith(line, RANGE) ==> IsTag(line)
  {
    assert StartsWith(line, STREAM) ==> line[0] == line[..|STREAM|][0];
    assert StartsWith(line, KEY) ==> line[0] == line[..|KEY|][0];
    assert StartsWith(line, RANGE) ==> line[0] == line[..|RANGE|][0];
  }

  /** The flags of a playlist are those of its lines. */
  lemma {:induction false} Flags(a: Scan, lines: seq<string>)
    ensures var b := ScanLines(a, lines);
            && (b.info.endlist <==> a.info.endlist || ENDLIST in lines)
            && (b.info.master <==> a.info.master || exists l :: l in lines && StartsWith(l, STREAM))
            && (b.info.unsupported <==> a.info.unsupported || exists l :: l in lines && Unsupported(l))
    decreases |lines|
  {
    if lines != [] {
      hide ScanLine, StartsWith, Unsupported;
      OneFlag(a, lines[0]);
      Flags(ScanLine(a, lines[0]), lines[1..]);
      assert lines == [lines[0]] + lines[1..];
    }
  }
}
