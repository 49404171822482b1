/**
 * Whole live runs, with tail refreshes and full ones mixed as the player mixes them: while the server's playlist
 * keeps its numbers and its end never moves back, every segment is played at most once and in order.
 */
module Live {
  import opened Bytes
  import opened Text
  import opened Playlist
  import opened Schedule
  import opened Runs
  import opened Tail
  import opened PlayerSpec

  // ---- the server

  predicate IsUri(line: string) { line != "" && !IsTag(line) }

  /** Segment numbers of at most 31 bits. */
  predicate IsNumber(n: int) { 0 <= n < 0x8000_0000 }

  /** Segment URIs: proper lines, and no two segments share one. */
  ghost predicate GoodNames(uriOf: int -> string) {
    && (forall n :: IsNumber(n) ==> IsUri(uriOf(n)) && Trim(uriOf(n)) == uriOf(n) && |uriOf(n)| < URL_MAX)
    && (forall m, n :: IsNumber(m) && IsNumber(n) && uriOf(m) == uriOf(n) ==> m == n)
  }

  /** Every URI line follows its EXTINF tag. */
  predicate Tagged(pending: bool, lines: seq<string>)
    decreases |lines|
  {
    lines == [] ||
    if IsTag(lines[0]) then Tagged(pending || StartsWith(lines[0], EXTINF), lines[1..])
    else if lines[0] == "" then Tagged(pending, lines[1..])
    else pending && Tagged(false, lines[1..])
  }

  /** The tags that number a playlist come before its segments. */
  ghost predicate NumberedFirst(lines: seq<string>) {
    forall i, j :: 0 <= i < j < |lines| && IsUri(lines[i]) ==> Plain(lines[j])
  }

  function EndAt(text: string): int { Analysis(text).mediaSeq + Analysis(text).nseg }

  /** A media playlist that lists segments under their names, with numbers of at most 31 bits. */
  ghost predicate Listed(uriOf: int -> string, text: string) {
    && Tagged(false, Lines(text)) && NumberedFirst(Lines(text))
    && Names(uriOf, Analysis(text).mediaSeq, Uris(false, Lines(text)))
    && 0 <= Analysis(text).mediaSeq && EndAt(text) < 0x8000_0000
  }

  /** The states of a live playlist one after the other: its end never moves back. */
  ghost predicate Published(uriOf: int -> string, ps: seq<string>) {
    && GoodNames(uriOf) && (forall text :: text in ps ==> Listed(uriOf, text))
    && forall i, j :: 0 <= i <= j < |ps| ==> EndAt(ps[i]) <= EndAt(ps[j])
  }

  /** Which states the two downloads of a round see, and where the tail begins. */
  datatype Glimpse = Glimpse(tail: nat, cut: nat, full: nat)

  /** Successful downloads deliver a suffix of a state and a whole one, none older than seen before, or a master playlist. */
  predicate Delivered(ps: seq<string>, at: nat, r: Round, g: Glimpse) {
    && at <= g.tail <= g.full < |ps| && g.cut <= |ps[g.tail]|
    && (r.tail.rc == Good ==> Seen(r.tail.body) == ps[g.tail][g.cut..])
    && (r.full.rc == Good ==> Seen(r.full.body) == ps[g.full] || Analysis(Seen(r.full.body)).master)
  }

  predicate AllDelivered(ps: seq<string>, at: nat, rs: seq<Round>, gs: seq<Glimpse>)
    decreases |rs|
  {
    |gs| == |rs| &&
    (rs == [] || (Delivered(ps, at, rs[0], gs[0]) && AllDelivered(ps, gs[0].full, rs[1..], gs[1..])))
  }

  // ---- where a tail refresh goes on

  lemma {:induction false} AfterLastSplits(s: string, uri: string) returns (x: seq<string>)
    requires AfterLast(s, uri).Some? && Trim(uri) == uri
    ensures Lines(s) == x + [uri] + Lines(AfterLast(s, uri).value)
    decreases |s|
  {
    hide Lines, LineEnd, AfterLine, Trim, DropCr;
    var line, rest := s[..LineEnd(s)], AfterLine(s);
    LinesFirst(s);
    if AfterLast(rest, uri).Some? {
      var y := AfterLastSplits(rest, uri);
      x := [Trim(line)] + y;
    } else {
      TrimCr(line, uri);
      x := [];
    }
  }

  lemma LinesFirst(s: string)
    requires s != ""
    ensures Lines(s) == [Trim(s[..LineEnd(s)])] + Lines(AfterLine(s)) && |AfterLine(s)| < |s|
  {
  }

  /** Whatever suffix the anchor is found in, it is a line of the whole playlist, and the rest follows it there. */
  lemma AnchorIsLine(text: string, cut: nat, uri: string) returns (x: seq<string>)
    requires cut <= |text| && LineEnd(text[cut..]) < |text[cut..]| && Trim(uri) == uri
    requires AfterLast(AfterLine(text[cut..]), uri).Some?
    ensures Lines(text) == x + [uri] + Lines(AfterLast(AfterLine(text[cut..]), uri).value)
  {
    hide Lines, LineEnd, AfterLine, AfterLast, Trim;
    var tail := text[cut..];
    AfterLineIs(tail);
    var front, rest := text[..cut + LineEnd(tail) + 1], AfterLine(tail);
    FrontSplits(text, cut, LineEnd(tail));
    LinesAppend(front, rest);
    var y := AfterLastSplits(rest, uri);
    x := Lines(front) + y;
  }

  lemma AfterLineIs(s: string)
    ensures LineEnd(s) < |s| ==> AfterLine(s) == s[LineEnd(s) + 1..] && s[LineEnd(s)] == '\n'
  {
  }

  lemma FrontSplits(text: string, cut: nat, e: nat)
    requires cut <= |text| && e < |text[cut..]| && text[cut..][e] == '\n'
    ensures
      var front := text[..cut + e + 1];
      Tail.Complete(front) && text == front + text[cut..][e + 1..]
  {
    assert text[cut..][e + 1..] == text[cut + e + 1..];
  }

  // ---- counting

  lemma {:induction false} InfsConcat(x: seq<string>, y: seq<string>)
    ensures Infs(x + y) == Infs(x) + Infs(y)
  {
    if x == [] {
      assert x + y == y;
    } else {
      assert (x + y)[0] == x[0] && (x + y)[1..] == x[1..] + y;
      InfsConcat(x[1..], y);
    }
  }

  /** Every segment listed, and one more if its tag is still pending, has its EXTINF. */
  lemma {:induction false} UrisAreOwed(pending: bool, x: seq<string>)
    ensures |Uris(pending, x)| + (if PendingAfter(pending, x) then 1 else 0) <= Infs(x) + (if pending then 1 else 0)
    decreases |x|
  {
    if x != [] {
      InfIsNothingElse(x[0]);
      hide IsTag, StartsWith;
      var p := if IsTag(x[0]) then pending || StartsWith(x[0], EXTINF) else if x[0] == "" || !pending then pending else false;
      UrisAreOwed(p, x[1..]);
    }
  }

  lemma {:induction false} TaggedPending(pending: bool, x: seq<string>, uri: string, z: seq<string>)
    requires Tagged(pending, x + ([uri] + z)) && IsUri(uri)
    ensures PendingAfter(pending, x)
    decreases |x|
  {
    var all := x + ([uri] + z);
    if x == [] {
      assert all[0] == uri;
    } else {
      assert all[0] == x[0] && all[1..] == x[1..] + ([uri] + z);
      hide StartsWith;
      var p := if IsTag(x[0]) then pending || StartsWith(x[0], EXTINF) else if x[0] == "" || !pending then pending else false;
      TaggedPending(p, x[1..], uri, z);
    }
  }

  /** The lines of a playlist around one of its URIs. */
  lemma AroundUri(x: seq<string>, uri: string, z: seq<string>)
    requires IsUri(uri) && Tagged(false, x + ([uri] + z))
    ensures Uris(false, x + ([uri] + z)) == Uris(false, x) + [uri] + Uris(false, z)
    ensures |Uris(false, x)| + 1 + Infs(z) <= Infs(x + ([uri] + z))
  {
    hide Uris, Infs, Tagged, IsTag, PendingAfter;
    TaggedPending(false, x, uri, z);
    UrisConcat(false, x, [uri] + z);
    UriFirst(uri, z);
    UrisAreOwed(false, x);
    InfsConcat(x, [uri] + z);
    assert Uris(false, x) + ([uri] + Uris(false, z)) == Uris(false, x) + [uri] + Uris(false, z);
  }

  lemma UriFirst(uri: string, z: seq<string>)
    requires IsUri(uri)
    ensures Uris(true, [uri] + z) == [uri] + Uris(false, z) && Infs([uri] + z) == Infs(z)
  {
    assert ([uri] + z)[1..] == z;
    InfIsNothingElse(uri);
    hide StartsWith;
  }

  /** The segment of a URI that a playlist lists. */
  lemma NumberOfUri(uriOf: int -> string, from: int, x: seq<string>, uri: string, z: seq<string>, n: int)
    requires GoodNames(uriOf) && uri == uriOf(n) && IsNumber(n) && 0 <= from && from + |x| < 0x8000_0000
    requires Names(uriOf, from, x + [uri] + z)
    ensures n == from + |x| && Names(uriOf, n + 1, z)
  {
    var all := x + [uri] + z;
    assert all[|x|] == uri;
    forall i | 0 <= i < |z| ensures z[i] == uriOf(n + 1 + i) {
      assert all[|x| + 1 + i] == z[i];
    }
  }

  // ---- a spliced playlist

  lemma HeaderListsNothing(target: nat, lastSeq: int, rest: string)
    ensures Uris(false, Lines(Header(target, lastSeq) + rest)) == Uris(false, Lines(rest))
  {
    hide Lines, Header, Decimal, SignedDecimal, Int32;
    var n := Int32(Int32(lastSeq) + 1);
    var a, b, c := "#EXTM3U", TARGET + Decimal(target), SEQUENCE + SignedDecimal(n);
    HeaderLines(target, lastSeq, rest);
    assert [a, b, c] + Lines(rest) == [a] + ([b] + ([c] + Lines(rest)));
    QuietLine(a, [b] + ([c] + Lines(rest)));
    QuietLine(b, [c] + Lines(rest));
    QuietLine(c, Lines(rest));
  }

  lemma QuietLine(line: string, rest: seq<string>)
    requires line == "#EXTM3U" || StartsWith(line, TARGET) || StartsWith(line, SEQUENCE)
    ensures Uris(false, [line] + rest) == Uris(false, rest)
  {
    assert ([line] + rest)[1..] == rest;
    if line == "#EXTM3U" {
      assert line[..|line|] == line;
      NotBoth(line, line, EXTINF, 4);
    } else {
      var tag := if StartsWith(line, TARGET) then TARGET else SEQUENCE;
      assert line[0] == line[..|tag|][0];
      NotBoth(line, tag, EXTINF, 4);
    }
  }

  /** A text the player may walk with what it remembers: it lists segments under their names up to a bound. */
  ghost predicate Walkable(uriOf: int -> string, m: Memory, text: string, bound: int) {
    && Names(uriOf, Analysis(text).mediaSeq, Uris(false, Lines(text)))
    && (m.haveLast ==> m.lastSeq < EndAt(text)) && EndAt(text) <= bound
  }

  /** What the player remembers of the segment played last. */
  ghost predicate Remembered(uriOf: int -> string, m: Memory, end: int) {
    m.haveLast ==> m.lastUri == uriOf(m.lastSeq) && 0 <= m.lastSeq < end
  }

  lemma SplicedText(uri: string, tail: string, target: nat, lastSeq: int)
    requires Spliced(tail, uri, target, lastSeq).Some?
    ensures
      && LineEnd(tail) < |tail| && AfterLast(AfterLine(tail), uri).Some?
      && Spliced(tail, uri, target, lastSeq).value == Header(target, lastSeq) + AfterLast(AfterLine(tail), uri).value
  {
  }

  lemma PlainBehind(x: seq<string>, uri: string, z: seq<string>)
    requires NumberedFirst(x + ([uri] + z)) && IsUri(uri)
    ensures forall l :: l in z ==> Plain(l)
  {
    var all := x + ([uri] + z);
    hide Plain, IsTag;
    forall l | l in z ensures Plain(l) {
      var k :| 0 <= k < |z| && z[k] == l;
      assert all[|x|] == uri && all[|x| + 1 + k] == l;
    }
  }

  /** The playlist spliced from a tail lists what the published one lists behind the segment played last. */
  lemma SplicedWalkable(uriOf: int -> string, m: Memory, text: string, cut: nat, target: nat)
    requires GoodNames(uriOf) && Listed(uriOf, text) && Remembered(uriOf, m, EndAt(text)) && m.haveLast
    requires cut <= |text| && Spliced(text[cut..], m.lastUri, target, m.lastSeq).Some?
    ensures
      var spliced := Spliced(text[cut..], m.lastUri, target, m.lastSeq).value;
      Walkable(uriOf, m, spliced, EndAt(text)) && Analysis(spliced).mediaSeq == m.lastSeq + 1
  {
    hide Lines, LineEnd, AfterLine, AfterLast, Spliced, Header, Analysis, Trim, Uris, Infs, Tagged, NumberedFirst, IsUri;
    SplicedText(m.lastUri, text[cut..], target, m.lastSeq);
    var uri, rest := m.lastUri, AfterLast(AfterLine(text[cut..]), m.lastUri).value;
    assert uri == uriOf(m.lastSeq);
    var x := AnchorIsLine(text, cut, uri);
    var z := Lines(rest);
    assert x + [uri] + z == x + ([uri] + z);
    AroundUri(x, uri, z);
    PlainBehind(x, uri, z);
    InfsAreCounted(text);
    NumberOfUri(uriOf, Analysis(text).mediaSeq, Uris(false, x), uri, Uris(false, z), m.lastSeq);
    SpliceNumbersExact(target, m.lastSeq, rest);
    SplicedInfo(target, m.lastSeq, rest);
    HeaderListsNothing(target, m.lastSeq, rest);
  }

  lemma InfsAreCounted(text: string)
    ensures Analysis(text).nseg == Infs(Lines(text))
  {
    ScanCounts(EMPTY_SCAN, Lines(text));
  }

  // ---- one round

  /**
   * What one walk or round does to a player that remembers the segment played last; `near` says that the playlist
   * still reaches back to it.
   */
  ghost predicate Progress(uriOf: int -> string, m: Memory, near: bool, done: seq<Segment>, mem: Memory, bound: int) {
    && Named(uriOf, done) && Remembered(uriOf, mem, bound)
    && (exists from :: Consecutive(from, done) && (m.haveLast ==> from > m.lastSeq && (near ==> from == m.lastSeq + 1)))
    && (done == [] ==> mem.haveLast == m.haveLast && mem.lastSeq == m.lastSeq)
    && (done != [] ==> mem.haveLast && mem.lastSeq == done[|done| - 1].number)
  }

  /** Walking a text that lists segments under their names. */
  lemma WalkProgress(resolve: Resolver, uriOf: int -> string, m: Memory, r: Refresh, bound: int)
    requires GoodNames(uriOf) && Remembered(uriOf, m, bound) && Walkable(uriOf, m, r.text, bound)
    requires 0 <= InfoOf(r).mediaSeq && bound <= 0x8000_0000
    ensures
      var w := Play(resolve, m, r);
      Progress(uriOf, m, InfoOf(r).mediaSeq <= m.lastSeq + 1, w.done, w.mem, bound)
  {
    hide Play, Analysis, Uris, Lines;
    RefreshStep(resolve, uriOf, m, r);
    var w := Play(resolve, m, r);
    var from := if m.haveLast && m.lastSeq >= InfoOf(r).mediaSeq then m.lastSeq + 1
                else if w.done == [] then InfoOf(r).mediaSeq else w.done[0].number;
    if w.done != [] {
      ClipFits(uriOf(w.mem.lastSeq));
    }
    var near := InfoOf(r).mediaSeq <= m.lastSeq + 1;
    assert Consecutive(from, w.done) && (m.haveLast ==> from > m.lastSeq && (near ==> from == m.lastSeq + 1));
  }

  lemma ClipFits(s: string)
    requires |s| < URL_MAX
    ensures Clip(s) == s
  {
  }

  /** The text a round walks, if it walks one, lists segments under their names. */
  lemma RoundText(uriOf: int -> string, ps: seq<string>, at: nat, p: Player, r: Round, g: Glimpse)
    requires Published(uriOf, ps) && at < |ps| && Delivered(ps, at, r, g) && Remembered(uriOf, p.mem, EndAt(ps[at]))
    ensures
      var m := FetchManifest(p, r);
      m.rc == Good && !Analysis(m.text).master ==>
        && Walkable(uriOf, p.mem, m.text, EndAt(ps[g.full])) && 0 <= Analysis(m.text).mediaSeq
  {
    hide Seen, Analysis, Spliced, Walkable, Listed, GoodNames, EndAt;
    var m := FetchManifest(p, r);
    assert EndAt(ps[at]) <= EndAt(ps[g.tail]) <= EndAt(ps[g.full]);
    assert ps[g.tail] in ps && ps[g.full] in ps;
    if m.rc == Good && !Analysis(m.text).master {
      if r.full.rc == Good && m.text == Seen(r.full.body) {
        ListedWalkable(uriOf, p.mem, ps[g.full], EndAt(ps[at]));
      } else {
        assert m.text == Spliced(ps[g.tail][g.cut..], p.mem.lastUri, p.target, p.mem.lastSeq).value;
        SplicedWalkable(uriOf, p.mem, ps[g.tail], g.cut, p.target);
        WalkableGrows(uriOf, p.mem, m.text, EndAt(ps[g.tail]), EndAt(ps[g.full]));
      }
    }
  }

  lemma ListedWalkable(uriOf: int -> string, m: Memory, text: string, end: int)
    requires Listed(uriOf, text) && Remembered(uriOf, m, end) && end <= EndAt(text)
    ensures Walkable(uriOf, m, text, EndAt(text)) && 0 <= Analysis(text).mediaSeq
  {
    hide Analysis, Names, Tagged, NumberedFirst;
  }

  lemma WalkableGrows(uriOf: int -> string, m: Memory, text: string, bound: int, more: int)
    requires Walkable(uriOf, m, text, bound) && bound <= more
    ensures Walkable(uriOf, m, text, more)
  {
    hide Analysis, Names;
  }

  lemma StandingStill(uriOf: int -> string, m: Memory, near: bool, end: int, bound: int)
    requires Remembered(uriOf, m, end) && end <= bound
    ensures Progress(uriOf, m, near, [], m, bound)
  {
    assert Consecutive(if m.haveLast then m.lastSeq + 1 else 0, []);
  }

  /** The playlist the round walks reaches back to the segment played last. */
  predicate Near(p: Player, r: Round) {
    Analysis(FetchManifest(p, r).text).mediaSeq <= p.mem.lastSeq + 1
  }

  lemma RoundProgress(urls: UrlResolver, uriOf: int -> string, ps: seq<string>, at: nat, p: Player, r: Round, g: Glimpse)
    requires Published(uriOf, ps) && at < |ps| && Delivered(ps, at, r, g) && Remembered(uriOf, p.mem, EndAt(ps[at]))
    ensures
      var t := PlayRound(urls, p, r);
      Progress(uriOf, p.mem, Walks(p, r) ==> Near(p, r), t.done, t.p.mem, EndAt(ps[g.full]))
  {
    var m := FetchManifest(p, r);
    RoundWalks(urls, p, r);
    RoundText(uriOf, ps, at, p, r, g);
    EndsInRange(uriOf, ps, g.full);
    hide PlayRound, FetchManifest, Analysis, Play, Progress, Walkable, Seen, Listed, GoodNames, IsManifest;
    assert EndAt(ps[at]) <= EndAt(ps[g.full]);
    hide EndAt;
    StandingStill(uriOf, p.mem, Walks(p, r) ==> Near(p, r), EndAt(ps[at]), EndAt(ps[g.full]));
    if Walks(p, r) {
      RememberedLonger(uriOf, p.mem, EndAt(ps[at]), EndAt(ps[g.full]));
      WalkProgress(Against(urls, p.url), uriOf, p.mem, RefreshOf(p, r), EndAt(ps[g.full]));
    }
  }

  lemma EndsInRange(uriOf: int -> string, ps: seq<string>, i: nat)
    requires Published(uriOf, ps) && i < |ps|
    ensures EndAt(ps[i]) < 0x8000_0000
  {
    hide Analysis, Names, Tagged, NumberedFirst, GoodNames;
    assert ps[i] in ps;
  }

  lemma RememberedLonger(uriOf: int -> string, m: Memory, end: int, bound: int)
    requires Remembered(uriOf, m, end) && end <= bound
    ensures Remembered(uriOf, m, bound)
  {
  }

  // ---- whole runs

  /** What a run has played: in order, nothing twice, nothing from before, each segment the one its number names. */
  ghost predicate InOrder(uriOf: int -> string, m: Memory, done: seq<Segment>) {
    Increasing(done) && Beyond(m, done) && Named(uriOf, done)
  }

  lemma GoesOn(uriOf: int -> string, m: Memory, near: bool, a: seq<Segment>, mem: Memory, bound: int, b: seq<Segment>)
    requires Progress(uriOf, m, near, a, mem, bound) && InOrder(uriOf, mem, b)
    ensures InOrder(uriOf, m, a + b) && InOrder(uriOf, m, a)
  {
    hide Increasing, Beyond, Named, Consecutive, Remembered;
    var from :| Consecutive(from, a) && (m.haveLast ==> from > m.lastSeq && (near ==> from == m.lastSeq + 1));
    PlaysOn(uriOf, from, m, a, mem, b);
    NothingPlayed(uriOf, mem);
    PlaysOn(uriOf, from, m, a, mem, []);
    assert a + [] == a;
  }

  /**
   * Exactly once, in order, over whole runs: however tail and full refreshes, failed downloads, segment errors
   * and master playlists mix, the completed segment numbers strictly increase, and each is the segment its number names.
   */
  lemma {:induction false} LiveOnce(urls: UrlResolver, uriOf: int -> string, ps: seq<string>, at: nat, p: Player,
                                    rs: seq<Round>, gs: seq<Glimpse>)
    requires Published(uriOf, ps) && at < |ps| && AllDelivered(ps, at, rs, gs)
    requires Remembered(uriOf, p.mem, EndAt(ps[at]))
    ensures InOrder(uriOf, p.mem, PlayRounds(urls, p, rs).done)
    decreases |rs|
  {
    hide PlayRound, Published, EndAt, Delivered, InOrder, Walks, Near;
    NothingInOrder(uriOf, p.mem);
    if rs != [] {
      var t, g, near := PlayRound(urls, p, rs[0]), gs[0], Walks(p, rs[0]) ==> Near(p, rs[0]);
      DeliveredIn(ps, at, rs[0], g);
      RoundProgress(urls, uriOf, ps, at, p, rs[0], g);
      NothingInOrder(uriOf, t.p.mem);
      GoesOn(uriOf, p.mem, near, t.done, t.p.mem, EndAt(ps[g.full]), []);
      if t.result.None? {
        ProgressRemembers(uriOf, p.mem, near, t.done, t.p.mem, EndAt(ps[g.full]));
        LiveOnce(urls, uriOf, ps, g.full, t.p, rs[1..], gs[1..]);
        GoesOn(uriOf, p.mem, near, t.done, t.p.mem, EndAt(ps[g.full]), PlayRounds(urls, t.p, rs[1..]).done);
      }
    }
  }

  lemma DeliveredIn(ps: seq<string>, at: nat, r: Round, g: Glimpse)
    requires Delivered(ps, at, r, g)
    ensures at <= g.full < |ps|
  {
    hide Seen, Analysis;
  }

  lemma NothingInOrder(uriOf: int -> string, m: Memory)
    ensures InOrder(uriOf, m, [])
  {
    NothingPlayed(uriOf, m);
  }

  lemma ProgressRemembers(uriOf: int -> string, m: Memory, near: bool, done: seq<Segment>, mem: Memory, bound: int)
    requires Progress(uriOf, m, near, done, mem, bound)
    ensures Remembered(uriOf, mem, bound)
  {
    hide Remembered, Consecutive, Named;
  }

  // ---- runs that stay within the window of the playlist

  /** The player never falls behind the playlists it walks. */
  ghost predicate StaysNear(urls: UrlResolver, p: Player, rs: seq<Round>)
    decreases |rs|
  {
    rs == [] ||
    (&& (p.mem.haveLast && Walks(p, rs[0]) ==> Near(p, rs[0]))
     && (PlayRound(urls, p, rs[0]).result.None? ==> StaysNear(urls, PlayRound(urls, p, rs[0]).p, rs[1..])))
  }

  /** Segments without a gap, behind the last one if there is one. */
  ghost predicate Gapless(m: Memory, done: seq<Segment>) {
    && (done != [] ==> Consecutive(done[0].number, done))
    && (m.haveLast && done != [] ==> done[0].number == m.lastSeq + 1)
  }

  lemma GaplessOn(uriOf: int -> string, m: Memory, a: seq<Segment>, mem: Memory, bound: int, b: seq<Segment>)
    requires Progress(uriOf, m, true, a, mem, bound) && Gapless(mem, b)
    ensures Gapless(m, a + b)
  {
    hide Named, Remembered;
    if a == [] {
      assert a + b == b;
    } else if b == [] {
      assert a + b == a;
      FirstAndLast(a);
    } else {
      FirstAndLast(a);
      Joined(a[0].number, a, b);
    }
  }

  lemma AlwaysNear(uriOf: int -> string, m: Memory, near: bool, done: seq<Segment>, mem: Memory, bound: int)
    requires Progress(uriOf, m, near, done, mem, bound) && (m.haveLast ==> near)
    ensures Progress(uriOf, m, true, done, mem, bound)
  {
    hide Named, Remembered, Consecutive;
  }

  /** No gap: if moreover the player stays within the window, no segment is left out between two others. */
  lemma {:induction false} LiveNoGap(urls: UrlResolver, uriOf: int -> string, ps: seq<string>, at: nat, p: Player,
                                     rs: seq<Round>, gs: seq<Glimpse>)
    requires Published(uriOf, ps) && at < |ps| && AllDelivered(ps, at, rs, gs)
    requires Remembered(uriOf, p.mem, EndAt(ps[at])) && StaysNear(urls, p, rs)
    ensures Gapless(p.mem, PlayRounds(urls, p, rs).done)
    decreases |rs|
  {
    hide PlayRound, Published, EndAt, Delivered, Gapless, Walks, Near, Progress;
    NothingMissing(p.mem);
    if rs != [] {
      var t, g, near := PlayRound(urls, p, rs[0]), gs[0], Walks(p, rs[0]) ==> Near(p, rs[0]);
      DeliveredIn(ps, at, rs[0], g);
      RoundProgress(urls, uriOf, ps, at, p, rs[0], g);
      AlwaysNear(uriOf, p.mem, near, t.done, t.p.mem, EndAt(ps[g.full]));
      if t.result.None? {
        ProgressRemembers(uriOf, p.mem, near, t.done, t.p.mem, EndAt(ps[g.full]));
        LiveNoGap(urls, uriOf, ps, g.full, t.p, rs[1..], gs[1..]);
        GaplessOn(uriOf, p.mem, t.done, t.p.mem, EndAt(ps[g.full]), PlayRounds(urls, t.p, rs[1..]).done);
      } else {
        NothingMissing(t.p.mem);
        GaplessOn(uriOf, p.mem, t.done, t.p.mem, EndAt(ps[g.full]), []);
        assert t.done + [] == t.done;
      }
    }
  }

  lemma NothingMissing(m: Memory)
    ensures Gapless(m, [])
  {
  }

  /** Every run from the start, whatever the server has published before the player came. */
  lemma LiveRun(urls: UrlResolver, url: string, uriOf: int -> string, ps: seq<string>, rs: seq<Round>, gs: seq<Glimpse>)
    requires Published(uriOf, ps) && ps != [] && AllDelivered(ps, 0, rs, gs)
    ensures
      var done := PlayRounds(urls, Start(url), rs).done;
      Increasing(done) && Named(uriOf, done)
  {
    hide Published, AllDelivered, PlayRounds;
    LiveOnce(urls, uriOf, ps, 0, Start(url), rs, gs);
  }
}
