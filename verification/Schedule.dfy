/**
 * The segment scheduler (process_segments): which segments of a playlist are fetched, in which order,
 * for every outcome of every download.
 */
module Schedule {
  import opened Bytes
  import opened Text
  import opened Playlist

  /** How a download ends; Stop covers a stop request seen during or after it. */
  datatype Outcome = Good | Bad | Stop

  /** What the environment does for one wanted segment. */
  datatype Attempt = Attempt(stop: bool, demux: bool, init: Outcome, url: bool, media: Outcome)

  /** A download: an init segment and how it ended, or a media segment and the map in force for it. */
  datatype Request = Init(url: string, outcome: Outcome) | Media(number: int, uri: string, under: string)

  datatype Segment = Segment(number: int, uri: string)

  /** What the player remembers between playlists. */
  datatype Memory = Memory(haveLast: bool, lastSeq: int, lastUri: string, mapUrl: string, lastMap: string)

  /** Resolves the URI of a map tag against the playlist's URL. */
  type Resolver = string -> string

  datatype Verdict = Going | Stopped | Error

  /** A playlist being walked: segments seen, tags pending, and what has been requested and completed. */
  datatype Walk = Walk(idx: nat, pending: bool, disc: bool, mem: Memory, script: seq<Attempt>,
                       reqs: seq<Request>, done: seq<Segment>)

  // ---- where to start

  /** A playlist that ends before the last segment played has restarted. */
  function AfterRestart(m: Memory, info: Info): Memory {
    if m.haveLast && m.lastSeq >= info.mediaSeq + info.nseg then m.(haveLast := false) else m
  }

  /** Joining a live playlist: near its end, or about 45 seconds back when it is big. */
  function JoinIndex(m: Memory, info: Info, big: bool): nat {
    if m.haveLast || info.endlist || info.nseg <= 2 then 0
    else if !big then info.nseg - 2
    else
      var back := if info.target > 0 then (45 + info.target - 1) / info.target else 8;
      var atLeast := if back < 2 then 2 else back;
      if info.nseg > atLeast then info.nseg - atLeast else 0
  }

  // ---- one line

  function Find(s: string, part: string): Option<nat> {
    if StartsWith(s, part) then Some(0)
    else if s == "" then None
    else match Find(s[1..], part) case None => None case Some(i) => Some(i + 1)
  }

  lemma FindFits(s: string, part: string)
    ensures Find(s, part).Some? ==> Find(s, part).value + |part| <= |s|
  {
  }

  function UntilQuote(s: string): string {
    if s == "" || s[0] == '"' then "" else [s[0]] + UntilQuote(s[1..])
  }

  /** The quoted URI attribute of a tag, unless it is too long. */
  function AttrUri(line: string): Option<string> {
    FindFits(line, "URI=\"");
    match Find(line, "URI=\"")
    case None => None
    case Some(i) =>
      var uri := UntilQuote(line[i + 5..]);
      if |uri| < URL_MAX then Some(uri) else None
  }

  /** The tag that announces a map. */
  function MapTag(uri: string): string { MAP + "URI=\"" + uri + "\"" }

  lemma {:induction false} FindSkips(s: string, part: string, n: nat)
    requires n <= |s| && forall i :: 0 <= i < n ==> !StartsWith(s[i..], part)
    ensures Find(s, part) == match Find(s[n..], part) case None => None case Some(i) => Some(n + i)
    decreases n
  {
    hide StartsWith;
    if n == 0 {
      assert s[0..] == s;
    } else {
      assert s[0..] == s;
      assert forall i :: 0 <= i < n - 1 ==> s[1..][i..] == s[i + 1..];
      FindSkips(s[1..], part, n - 1);
      assert s[1..][n - 1..] == s[n..];
    }
  }

  lemma FindHere(s: string, part: string)
    requires StartsWith(s, part)
    ensures Find(s, part) == Some(0)
  {
  }

  lemma {:induction false} QuoteEnds(s: string, rest: string)
    requires '"' !in s && rest != "" && rest[0] == '"'
    ensures UntilQuote(s + rest) == s
    decreases |s|
  {
    if s == "" {
      assert s + rest == rest;
    } else {
      assert (s + rest)[0] == s[0] && (s + rest)[1..] == s[1..] + rest;
      QuoteEnds(s[1..], rest);
    }
  }

  lemma MapUriFound(uri: string)
    ensures Find(MapTag(uri), "URI=\"") == Some(|MAP|)
  {
    var s, part := MapTag(uri), "URI=\"";
    assert s[..|MAP|] == MAP && s[|MAP|..] == part + (uri + "\"");
    assert s[|MAP|..][..5] == part;
    hide Find;
    forall i | 0 <= i < |MAP| ensures !StartsWith(s[i..], part) {
      assert s[i..][0] == MAP[i] && MAP[i] != 'U';
    }
    FindSkips(s, part, |MAP|);
    FindHere(s[|MAP|..], part);
  }

  /** And the player reads the announced URI back. */
  lemma MapTagRead(uri: string)
    requires '"' !in uri && |uri| < URL_MAX
    ensures AttrUri(MapTag(uri)) == Some(uri)
  {
    MapUriFound(uri);
    QuoteEnds(uri, "\"");
    assert MapTag(uri)[|MAP| + 5..] == uri + "\"";
    hide Find, UntilQuote;
  }

  function WalkTag(resolve: Resolver, w: Walk, line: string): Walk {
    if StartsWith(line, MAP) then
      match AttrUri(line)
      case None => w
      case Some(rel) => w.(mem := w.mem.(mapUrl := resolve(rel)))
    else if StartsWith(line, DISCONTINUITY) && !(|line| > |DISCONTINUITY| && line[|DISCONTINUITY|] == '-') then
      w.(disc := true)
    else if StartsWith(line, EXTINF) then w.(pending := true)
    else w
  }

  predicate Wanted(m: Memory, seqNo: int, idx: nat, first: nat) {
    if m.haveLast then seqNo > m.lastSeq else idx >= first
  }

  /** A discontinuity invalidates the init segment; one that differs from the last is fetched first. */
  function FetchInit(w: Walk, disc: bool, a: Attempt): (Walk, Verdict) {
    var lastMap := if disc && w.mem.haveLast then "" else w.mem.lastMap;
    var w1 := w.(mem := w.mem.(lastMap := lastMap));
    if w.mem.mapUrl == "" || w.mem.mapUrl == lastMap then (w1, Going)
    else
      var w2 := w1.(reqs := w1.reqs + [Init(w.mem.mapUrl, a.init)]);
      match a.init
      case Stop => (w2, Stopped)
      case Bad => (w2, Error)
      case Good => (w2.(mem := w2.mem.(lastMap := w.mem.mapUrl)), Going)
  }

  function FetchMedia(w: Walk, seqNo: int, line: string, a: Attempt): (Walk, Verdict) {
    if !a.url then (w, Error)
    else
      var w1 := w.(reqs := w.reqs + [Media(seqNo, line, w.mem.mapUrl)]);
      match a.media
      case Stop => (w1, Stopped)
      case Bad => (w1, Error)
      case Good =>
        (w1.(mem := w1.mem.(haveLast := true, lastSeq := seqNo, lastUri := Clip(line)),
             done := w1.done + [Segment(seqNo, line)]), Going)
  }

  /** Fetches a wanted segment. A script that has run out stands for a stop request. */
  function FetchSegment(w: Walk, disc: bool, seqNo: int, line: string): (Walk, Verdict) {
    if w.script == [] || w.script[0].stop then (w, Stopped)
    else
      var a, w0 := w.script[0], w.(script := w.script[1..]);
      if !a.demux then (w0, Error)
      else
        var (w1, v) := FetchInit(w0, disc, a);
        if v.Going? then FetchMedia(w1, seqNo, line, a) else (w1, v)
  }

  function WalkLine(resolve: Resolver, info: Info, first: nat, w: Walk, line: string): (Walk, Verdict) {
    if IsTag(line) then (WalkTag(resolve, w, line), Going)
    else if line == "" || !w.pending then (w, Going)
    else
      var seqNo, w1 := info.mediaSeq + w.idx, w.(idx := w.idx + 1, pending := false, disc := false);
      if Wanted(w.mem, seqNo, w.idx, first) then FetchSegment(w1, w.disc, seqNo, line) else (w1, Going)
  }

  function WalkLines(resolve: Resolver, info: Info, first: nat, w: Walk, lines: seq<string>): (Walk, Verdict)
    decreases |lines|
  {
    if lines == [] then (w, Going)
    else
      var (w1, v) := WalkLine(resolve, info, first, w, lines[0]);
      if v.Going? then WalkLines(resolve, info, first, w1, lines[1..]) else (w1, v)
  }

  function StartWalk(m: Memory, script: seq<Attempt>): Walk {
    Walk(0, false, false, m, script, [], [])
  }

  /** process_segments on a playlist text. */
  function Process(resolve: Resolver, m: Memory, big: bool, info: Info, text: string, script: seq<Attempt>): (Walk, Verdict) {
    var m1 := AfterRestart(m, info);
    WalkLines(resolve, info, JoinIndex(m1, info, big), StartWalk(m1, script), Lines(text))
  }

  // ---- the segments of a playlist

  /** The segment URIs in some lines: the first line after an EXTINF that is neither empty nor a tag. */
  function Uris(pending: bool, lines: seq<string>): seq<string>
    decreases |lines|
  {
    if lines == [] then []
    else if IsTag(lines[0]) then Uris(pending || StartsWith(lines[0], EXTINF), lines[1..])
    else if lines[0] == "" || !pending then Uris(pending, lines[1..])
    else [lines[0]] + Uris(false, lines[1..])
  }

  function Numbered(uris: seq<string>, from: int): seq<Segment> {
    if uris == [] then [] else [Segment(from, uris[0])] + Numbered(uris[1..], from + 1)
  }

  /** How many of the next segments are passed over: those up to the last played, or before the joining point. */
  function Passed(m: Memory, nextSeq: int, idx: nat, first: nat): nat {
    if m.haveLast then (if m.lastSeq >= nextSeq then m.lastSeq + 1 - nextSeq else 0)
    else if first > idx then first - idx else 0
  }

  /** The segments still to be fetched, in order. */
  function Plan(m: Memory, info: Info, idx: nat, first: nat, uris: seq<string>): seq<Segment> {
    var n := Passed(m, info.mediaSeq + idx, idx, first);
    if n >= |uris| then [] else Numbered(uris[n..], info.mediaSeq + idx + n)
  }

  lemma {:induction false} NumberedAt(uris: seq<string>, from: int, i: nat)
    requires i < |uris|
    ensures |Numbered(uris, from)| == |uris| && Numbered(uris, from)[i] == Segment(from + i, uris[i])
  {
    NumberedLength(uris, from);
    if i > 0 {
      NumberedAt(uris[1..], from + 1, i - 1);
    }
  }

  lemma {:induction false} NumberedLength(uris: seq<string>, from: int)
    ensures |Numbered(uris, from)| == |uris|
  {
    if uris != [] {
      NumberedLength(uris[1..], from + 1);
    }
  }

  /** A step of the walk that meets no segment leaves plan and progress alone. */
  lemma TagKeeps(resolve: Resolver, w: Walk, line: string)
    requires IsTag(line)
    ensures var t := WalkTag(resolve, w, line);
            && t.idx == w.idx && t.done == w.done && t.reqs == w.reqs && t.script == w.script
            && t.pending == (w.pending || StartsWith(line, EXTINF))
            && t.mem == w.mem.(mapUrl := t.mem.mapUrl)
  {
    NotBoth(line, EXTINF, MAP, 4);
    NotBoth(line, EXTINF, DISCONTINUITY, 4);
  }

  /** Fetching a segment completes it or ends the walk. */
  lemma FetchKeeps(w: Walk, disc: bool, seqNo: int, line: string)
    ensures var (t, v) := FetchSegment(w, disc, seqNo, line);
            && t.idx == w.idx && t.pending == w.pending
            && (v.Going? ==> t.done == w.done + [Segment(seqNo, line)]
                             && t.mem.haveLast && t.mem.lastSeq == seqNo && t.mem.lastUri == Clip(line))
            && (!v.Going? ==> t.done == w.done
                              && t.mem.haveLast == w.mem.haveLast && t.mem.lastSeq == w.mem.lastSeq
                              && t.mem.lastUri == w.mem.lastUri)
  {
    if w.script != [] {
      InitKeeps(w.(script := w.script[1..]), disc, w.script[0]);
    }
    hide FetchInit;
  }

  lemma InitKeeps(w: Walk, disc: bool, a: Attempt)
    ensures var (t, v) := FetchInit(w, disc, a);
            && t == w.(reqs := t.reqs, mem := t.mem)
            && t.mem == w.mem.(lastMap := t.mem.lastMap)
  {
  }

  lemma PlanSkip(m: Memory, info: Info, idx: nat, first: nat, uris: seq<string>)
    requires uris != [] && !Wanted(m, info.mediaSeq + idx, idx, first)
    ensures Plan(m, info, idx, first, uris) == Plan(m, info, idx + 1, first, uris[1..])
  {
    var n := Passed(m, info.mediaSeq + idx, idx, first);
    assert n > 0;
    if n < |uris| {
      assert uris[n..] == uris[1..][n - 1..];
    }
  }

  lemma PlanTake(m: Memory, next: Memory, info: Info, idx: nat, first: nat, uris: seq<string>)
    requires uris != [] && Wanted(m, info.mediaSeq + idx, idx, first)
    requires next.haveLast && next.lastSeq == info.mediaSeq + idx
    ensures Plan(m, info, idx, first, uris)
            == [Segment(info.mediaSeq + idx, uris[0])] + Plan(next, info, idx + 1, first, uris[1..])
  {
    assert uris[0..] == uris && uris[1..][0..] == uris[1..];
    if |uris| == 1 {
      assert Numbered(uris[1..], info.mediaSeq + idx + 1) == [];
    }
  }

  /** What a walk from `w` to `t` has achieved: it completed a prefix of its plan, the whole plan if it got through. */
  ghost predicate Achieved(w: Walk, plan: seq<Segment>, t: Walk, v: Verdict) {
    && |w.done| <= |t.done| <= |w.done| + |plan|
    && var n := |t.done| - |w.done|;
    && t.done == w.done + plan[..n]
    && (v.Going? ==> n == |plan|)
    && (n == 0 ==> (t.mem.haveLast, t.mem.lastSeq, t.mem.lastUri) == (w.mem.haveLast, w.mem.lastSeq, w.mem.lastUri))
    && (n > 0 ==> t.mem.haveLast && t.mem.lastSeq == plan[n - 1].number && t.mem.lastUri == Clip(plan[n - 1].uri))
  }

  lemma AchievedSame(w: Walk, w1: Walk, plan: seq<Segment>, t: Walk, v: Verdict)
    requires w1.done == w.done && (w1.mem.haveLast, w1.mem.lastSeq, w1.mem.lastUri) == (w.mem.haveLast, w.mem.lastSeq, w.mem.lastUri)
    requires Achieved(w1, plan, t, v)
    ensures Achieved(w, plan, t, v)
  {
  }

  lemma AchievedOne(w: Walk, w1: Walk, x: Segment, rest: seq<Segment>, t: Walk, v: Verdict)
    requires w1.done == w.done + [x] && w1.mem.haveLast && w1.mem.lastSeq == x.number && w1.mem.lastUri == Clip(x.uri)
    requires Achieved(w1, rest, t, v)
    ensures Achieved(w, [x] + rest, t, v)
  {
    var n, plan := |t.done| - |w1.done|, [x] + rest;
    assert plan[..n + 1] == [x] + rest[..n];
    assert w.done + [x] + rest[..n] == w.done + ([x] + rest[..n]);
    assert n > 0 ==> plan[n] == rest[n - 1];
  }

  lemma AchievedNone(w: Walk, plan: seq<Segment>, t: Walk, v: Verdict)
    requires t.done == w.done && (v.Going? ==> plan == [])
    requires (t.mem.haveLast, t.mem.lastSeq, t.mem.lastUri) == (w.mem.haveLast, w.mem.lastSeq, w.mem.lastUri)
    ensures Achieved(w, plan, t, v)
  {
    assert w.done + plan[..0] == w.done;
  }

  /** Whatever the downloads do, a walk completes a prefix of its plan in order, and all of it unless it ends early. */
  lemma {:induction false} WalkAchieves(resolve: Resolver, info: Info, first: nat, w: Walk, lines: seq<string>)
    ensures var (t, v) := WalkLines(resolve, info, first, w, lines);
            Achieved(w, Plan(w.mem, info, w.idx, first, Uris(w.pending, lines)), t, v)
    decreases |lines|
  {
    hide FetchSegment, WalkTag, Achieved, IsTag, Wanted, Plan;
    var uris := Uris(w.pending, lines);
    var plan := Plan(w.mem, info, w.idx, first, uris);
    var (t, v) := WalkLines(resolve, info, first, w, lines);
    if lines == [] {
      PlanOfNothing(w.mem, info, w.idx, first);
      AchievedNone(w, plan, t, v);
    } else {
      var line, rest := lines[0], lines[1..];
      var (w1, v1) := WalkLine(resolve, info, first, w, line);
      if IsTag(line) {
        TagKeeps(resolve, w, line);
        PlanIgnoresMap(w.mem, w1.mem, info, w.idx, first, uris);
        WalkAchieves(resolve, info, first, w1, rest);
        AchievedSame(w, w1, plan, t, v);
      } else if line == "" || !w.pending {
        WalkAchieves(resolve, info, first, w, rest);
      } else {
        var seqNo := info.mediaSeq + w.idx;
        assert uris[1..] == Uris(false, rest);
        if !Wanted(w.mem, seqNo, w.idx, first) {
          PlanSkip(w.mem, info, w.idx, first, uris);
          WalkAchieves(resolve, info, first, w1, rest);
          AchievedSame(w, w1, plan, t, v);
        } else {
          FetchKeeps(w.(idx := w.idx + 1, pending := false, disc := false), w.disc, seqNo, line);
          if v1.Going? {
            PlanTake(w.mem, w1.mem, info, w.idx, first, uris);
            WalkAchieves(resolve, info, first, w1, rest);
            AchievedOne(w, w1, Segment(seqNo, line), Plan(w1.mem, info, w1.idx, first, Uris(false, rest)), t, v);
          } else {
            AchievedNone(w, plan, t, v);
          }
        }
      }
    }
  }

  lemma PlanOfNothing(m: Memory, info: Info, idx: nat, first: nat)
    ensures Plan(m, info, idx, first, []) == []
  {
  }

  lemma PlanIgnoresMap(m: Memory, n: Memory, info: Info, idx: nat, first: nat, uris: seq<string>)
    requires n == m.(mapUrl := n.mapUrl)
    ensures Plan(n, info, idx, first, uris) == Plan(m, info, idx, first, uris)
  {
  }
}
