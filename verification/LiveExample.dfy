/** There are live playlists and runs of the kind the theorems about live runs speak of. */
module LiveExample {
  import opened Bytes
  import opened Text
  import opened Playlist
  import opened Schedule
  import opened Runs
  import opened Tail
  import opened PlayerSpec
  import opened Vod
  import opened Live
  import opened TailMaps
  import opened LiveMaps

  // ---- names

  /** The name of a segment: a letter and its number. */
  function NameOf(n: int): string { if n < 0 then "s" else "s" + Decimal(n) }

  function Power10(k: nat): nat {
    if k == 0 then 1 else 10 * Power10(k - 1)
  }

  lemma {:induction false} DecimalLength(n: nat, k: nat)
    requires 0 < k && n < Power10(k)
    ensures |Decimal(n)| <= k
    decreases k
  {
    if n >= 10 {
      assert k > 1;
      TenthBelow(n, Power10(k - 1));
      DecimalLength(n / 10, k - 1);
    }
  }

  lemma TenthBelow(n: nat, p: nat)
    requires n < 10 * p
    ensures n / 10 < p
  {
  }

  lemma TenDigits()
    ensures Power10(10) == 10_000_000_000
  {
    assert Power10(3) == 1000;
    assert Power10(6) == 1000_000;
    assert Power10(9) == 1000_000_000;
  }

  lemma NameIsUri(n: int)
    requires IsNumber(n)
    ensures IsUri(NameOf(n)) && Trim(NameOf(n)) == NameOf(n) && |NameOf(n)| < URL_MAX
    ensures OneLine(NameOf(n)) && NUL !in NameOf(n)
  {
    TenDigits();
    DecimalLength(n, 10);
    var d, s := Decimal(n), NameOf(n);
    hide Decimal, Power10;
    assert s[|s| - 1] == d[|d| - 1] && d[|d| - 1] in d;
    assert forall i :: 0 < i < |s| ==> s[i] == d[i - 1] && d[i - 1] in d;
  }

  lemma NamesDiffer(m: int, n: int)
    requires IsNumber(m) && IsNumber(n) && NameOf(m) == NameOf(n)
    ensures m == n
  {
    DecimalReadBack(m);
    DecimalReadBack(n);
    hide Decimal;
    assert NameOf(m)[1..] == Decimal(m) && NameOf(n)[1..] == Decimal(n);
  }

  lemma NamesAreGood()
    ensures GoodNames(NameOf)
  {
    forall n | IsNumber(n) ensures IsUri(NameOf(n)) && Trim(NameOf(n)) == NameOf(n) && |NameOf(n)| < URL_MAX {
      NameIsUri(n);
    }
    forall m, n | IsNumber(m) && IsNumber(n) && NameOf(m) == NameOf(n) ensures m == n {
      NamesDiffer(m, n);
    }
  }

  // ---- playlists

  /** `n` segments from number `from` on. */
  function Body(from: nat, n: nat): string
    decreases n
  {
    if n == 0 then "" else EXTINF + "\n" + (NameOf(from) + "\n" + Body(from + 1, n - 1))
  }

  function BodyLines(from: nat, n: nat): seq<string>
    decreases n
  {
    if n == 0 then [] else [EXTINF] + ([NameOf(from)] + BodyLines(from + 1, n - 1))
  }

  /** The tag of a map, and the segments it is for. */
  const MAP_LINE := "#EXT-X-MAP:URI=\"init\""

  function Mapping(from: nat, n: nat): string { MAP_LINE + "\n" + Body(from, n) }

  function MappingLines(from: nat, n: nat): seq<string> { [MAP_LINE] + BodyLines(from, n) }

  /** The window of a live playlist. */
  function Window(from: nat, n: nat): string { Header(6, from - 1) + Mapping(from, n) }

  predicate BodyIs(from: nat, n: nat) { Lines(Body(from, n)) == BodyLines(from, n) && NUL !in Body(from, n) }

  lemma {:induction false} LinesOfBody(from: nat, n: nat)
    requires from + n < 0x8000_0000
    ensures BodyIs(from, n)
    decreases n
  {
    hide BodyIs;
    if n == 0 {
      EmptyBody(from);
    } else {
      LinesOfBody(from + 1, n - 1);
      LongerBody(from, n);
    }
  }

  lemma EmptyBody(from: nat)
    ensures BodyIs(from, 0)
  {
    BodyUnfolds(from, 0);
    NoLines();
  }

  lemma LongerBody(from: nat, n: nat)
    requires 0 < n && from + n < 0x8000_0000 && BodyIs(from + 1, n - 1)
    ensures BodyIs(from, n)
  {
    hide Body, BodyLines, Lines, NameOf, OneLine, Trim;
    BodyUnfolds(from, n);
    NameIsUri(from);
    LinesOfTwo(Body(from, n), NameOf(from), Body(from + 1, n - 1), BodyLines(from + 1, n - 1));
  }

  lemma LinesOfTwo(text: string, uri: string, rest: string, more: seq<string>)
    requires OneLine(uri) && Trim(uri) == uri && NUL !in uri && NUL !in rest
    requires text == EXTINF + "\n" + (uri + "\n" + rest) && Lines(rest) == more
    ensures Lines(text) == [EXTINF] + ([uri] + more) && NUL !in text
  {
    hide Lines, OneLine, Trim;
    TwoLines(uri, rest);
  }

  lemma BodyUnfolds(from: nat, n: nat)
    ensures n == 0 ==> Body(from, n) == "" && BodyLines(from, n) == []
    ensures
      n > 0 ==>
        && Body(from, n) == EXTINF + "\n" + (NameOf(from) + "\n" + Body(from + 1, n - 1))
        && BodyLines(from, n) == [EXTINF] + ([NameOf(from)] + BodyLines(from + 1, n - 1))
  {
    hide NameOf;
  }

  lemma TwoLines(uri: string, rest: string)
    requires OneLine(uri) && Trim(uri) == uri && NUL !in uri && NUL !in rest
    ensures
      var text := EXTINF + "\n" + (uri + "\n" + rest);
      Lines(text) == [EXTINF] + ([uri] + Lines(rest)) && NUL !in text
  {
    TagsAreLines();
    NoNul();
    hide *;
    FirstLine(EXTINF, uri + "\n" + rest);
    FirstLine(uri, rest);
  }

  lemma NoNul()
    ensures NUL !in EXTINF && NUL !in "\n"
  {
  }

  /** What the walk and the analysis need to know of the segment lines. */
  lemma {:induction false} SegmentLines(from: nat, n: nat)
    requires from + n < 0x8000_0000
    ensures
      var lines := BodyLines(from, n);
      && Tagged(false, lines) && Infs(lines) == n && |Uris(false, lines)| == n
      && (forall i :: 0 <= i < n ==> Uris(false, lines)[i] == NameOf(from + i))
      && forall l :: l in lines ==> l == EXTINF || (IsUri(l) && Plain(l))
    decreases n
  {
    if n > 0 {
      SegmentLines(from + 1, n - 1);
      NameIsUri(from);
      InfTag();
      OneMore(NameOf(from), BodyLines(from + 1, n - 1));
      UriIsPlain(NameOf(from));
      hide NameOf, Plain, Uris, Infs, Tagged, IsUri;
      var lines, rest := BodyLines(from, n), BodyLines(from + 1, n - 1);
      assert lines == [EXTINF] + ([NameOf(from)] + rest);
      assert Uris(false, lines) == [NameOf(from)] + Uris(false, rest);
      forall i | 0 <= i < n ensures Uris(false, lines)[i] == NameOf(from + i) {
        if i > 0 {
          assert Uris(false, lines)[i] == Uris(false, rest)[i - 1];
        }
      }
    }
  }

  lemma InfTag()
    ensures IsTag(EXTINF) && StartsWith(EXTINF, EXTINF) && Plain(EXTINF)
  {
    assert EXTINF[..|EXTINF|] == EXTINF;
  }

  lemma UriIsPlain(uri: string)
    requires IsUri(uri)
    ensures Plain(uri) && !StartsWith(uri, STREAM) && !Unsupported(uri) && !StartsWith(uri, EXTINF)
  {
    TagHead(uri);
    InfIsNothingElse(uri);
    NumberingHead(uri);
    hide StartsWith;
  }

  lemma NumberingHead(line: string)
    ensures StartsWith(line, TARGET) || StartsWith(line, SEQUENCE) ==> IsTag(line)
  {
    assert StartsWith(line, TARGET) ==> line[0] == line[..|TARGET|][0];
    assert StartsWith(line, SEQUENCE) ==> line[0] == line[..|SEQUENCE|][0];
  }

  lemma OneMore(uri: string, rest: seq<string>)
    requires IsUri(uri)
    ensures
      var lines := [EXTINF] + ([uri] + rest);
      && Uris(false, lines) == [uri] + Uris(false, rest) && Infs(lines) == 1 + Infs(rest)
      && (Tagged(false, rest) ==> Tagged(false, lines))
  {
    InfTag();
    UriIsPlain(uri);
    hide StartsWith, Plain, Unsupported;
    var lines := [EXTINF] + ([uri] + rest);
    assert lines[1..] == [uri] + rest && ([uri] + rest)[1..] == rest;
  }

  /** A tag that announces no segment, in front of other lines. */
  lemma QuietTagLine(line: string, rest: seq<string>)
    requires IsTag(line) && !StartsWith(line, EXTINF)
    ensures Uris(false, [line] + rest) == Uris(false, rest) && Infs([line] + rest) == Infs(rest)
    ensures Tagged(false, rest) ==> Tagged(false, [line] + rest)
  {
    assert ([line] + rest)[1..] == rest;
    hide StartsWith;
  }

  /** The lines of the header are such tags. */
  lemma HeaderLine(line: string)
    requires line == "#EXTM3U" || StartsWith(line, TARGET) || StartsWith(line, SEQUENCE)
    ensures IsTag(line) && !StartsWith(line, EXTINF)
  {
    if line == "#EXTM3U" {
      assert line[..|line|] == line;
      NotBoth(line, line, EXTINF, 4);
    } else {
      var tag := if StartsWith(line, TARGET) then TARGET else SEQUENCE;
      assert line[0] == line[..|tag|][0];
      NotBoth(line, tag, EXTINF, 4);
    }
  }

  /** And so is the tag of the map. */
  lemma MapLine()
    ensures IsTag(MAP_LINE) && StartsWith(MAP_LINE, MAP) && !StartsWith(MAP_LINE, EXTINF) && Plain(MAP_LINE)
    ensures !StartsWith(MAP_LINE, STREAM) && !Unsupported(MAP_LINE)
    ensures OneLine(MAP_LINE) && Trim(MAP_LINE) == MAP_LINE && NUL !in MAP_LINE
  {
    assert MAP_LINE[..|MAP|] == MAP;
    NotBoth(MAP_LINE, MAP, EXTINF, 4);
    NotBoth(MAP_LINE, MAP, TARGET, 7);
    NotBoth(MAP_LINE, MAP, SEQUENCE, 8);
    NotBoth(MAP_LINE, MAP, STREAM, 7);
    NotBoth(MAP_LINE, MAP, KEY, 7);
    NotBoth(MAP_LINE, MAP, RANGE, 7);
  }

  lemma LinesOfMapping(from: nat, n: nat)
    requires from + n < 0x8000_0000
    ensures Lines(Mapping(from, n)) == MappingLines(from, n) && NUL !in Mapping(from, n)
  {
    MapLine();
    LinesOfBody(from, n);
    hide Lines, Body, BodyLines, Trim, OneLine, StartsWith, Plain, Unsupported;
    FirstLine(MAP_LINE, Body(from, n));
    NoNul();
  }

  /** What the walk and the analysis need to know of the lines behind the header. */
  lemma MappingFacts(from: nat, n: nat)
    requires from + n < 0x8000_0000
    ensures
      var lines := MappingLines(from, n);
      && Tagged(false, lines) && Infs(lines) == n && Uris(false, lines) == Uris(false, BodyLines(from, n))
      && forall l :: l in lines ==> l == MAP_LINE || l == EXTINF || (IsUri(l) && Plain(l))
  {
    SegmentLines(from, n);
    MapLine();
    QuietTagLine(MAP_LINE, BodyLines(from, n));
    hide Plain, StartsWith, BodyLines, Tagged, Uris, Infs, IsTag, Unsupported, IsUri;
  }

  lemma WindowLines(from: nat, n: nat) returns (a: string, b: string, c: string)
    requires from + n < 0x8000_0000
    ensures Lines(Window(from, n)) == [a] + ([b] + ([c] + MappingLines(from, n)))
    ensures a == "#EXTM3U" && StartsWith(b, TARGET) && StartsWith(c, SEQUENCE)
    ensures b == TARGET + Decimal(6) && c == SEQUENCE + SignedDecimal(Int32(Int32(from - 1) + 1))
  {
    hide Lines, Header, Decimal, SignedDecimal, Int32, Mapping, MappingLines;
    a, b, c := "#EXTM3U", TARGET + Decimal(6), SEQUENCE + SignedDecimal(Int32(Int32(from - 1) + 1));
    HeaderLines(6, from - 1, Mapping(from, n));
    LinesOfMapping(from, n);
    assert [a, b, c] + MappingLines(from, n) == [a] + ([b] + ([c] + MappingLines(from, n)));
    assert b[..|TARGET|] == TARGET && c[..|SEQUENCE|] == SEQUENCE;
  }

  lemma WindowNumbers(from: nat, n: nat)
    requires from + n < 0x8000_0000
    ensures
      var text := Window(from, n);
      && Analysis(text).mediaSeq == from && Analysis(text).nseg == n
      && Uris(false, Lines(text)) == Uris(false, BodyLines(from, n))
  {
    hide Lines, Header, Analysis, Int32, Uris, Infs, Plain, Tagged, MappingLines, Mapping, IsUri;
    LinesOfMapping(from, n);
    MappingFacts(from, n);
    InfTag();
    MapLine();
    SplicedInfo(6, from - 1, Mapping(from, n));
    SpliceNumbersExact(6, from - 1, Mapping(from, n));
    HeaderListsNothing(6, from - 1, Mapping(from, n));
  }

  lemma WindowListed(from: nat, n: nat)
    requires from + n < 0x8000_0000
    ensures Listed(NameOf, Window(from, n)) && EndAt(Window(from, n)) == from + n
  {
    hide Lines, Header, Analysis, NameOf, Uris, Plain, Tagged, Infs, Window, MappingLines;
    WindowNumbers(from, n);
    SegmentLines(from, n);
    WindowIsTagged(from, n);
    hide BodyLines;
  }

  lemma WindowIsTagged(from: nat, n: nat)
    requires from + n < 0x8000_0000
    ensures Tagged(false, Lines(Window(from, n))) && NumberedFirst(Lines(Window(from, n)))
  {
    hide Lines, Plain, Tagged, Window, MappingLines, StartsWith, NumberedFirst;
    var a, b, c := WindowLines(from, n);
    var lines := MappingLines(from, n);
    MappingFacts(from, n);
    HeaderLine(a);
    HeaderLine(b);
    HeaderLine(c);
    QuietTagLine(c, lines);
    QuietTagLine(b, [c] + lines);
    QuietTagLine(a, [b] + ([c] + lines));
    InfTag();
    MapLine();
    PlainBehindTags([a] + [b] + [c], lines);
    assert [a] + [b] + [c] + lines == [a] + ([b] + ([c] + lines));
  }

  lemma PlainBehindTags(tags: seq<string>, lines: seq<string>)
    requires (forall l :: l in tags ==> IsTag(l)) && forall l :: l in lines ==> Plain(l)
    ensures NumberedFirst(tags + lines)
  {
    hide Plain, IsTag;
    var all := tags + lines;
    forall i | 0 <= i < |tags| ensures !IsUri(all[i]) {
      assert all[i] == tags[i] && tags[i] in tags;
    }
    assert forall j :: |tags| <= j < |all| ==> all[j] == lines[j - |tags|] && all[j] in lines;
  }

  /** Any windows whose end never moves back are the states of a live playlist. */
  lemma WindowsArePublished(windows: seq<(nat, nat)>) returns (ps: seq<string>)
    requires forall w <- windows :: w.0 + w.1 < 0x8000_0000
    requires forall i, j :: 0 <= i <= j < |windows| ==> windows[i].0 + windows[i].1 <= windows[j].0 + windows[j].1
    ensures |ps| == |windows| && Published(NameOf, ps)
    ensures forall i :: 0 <= i < |ps| ==> ps[i] == Window(windows[i].0, windows[i].1)
  {
    hide GoodNames, Listed, EndAt, Window;
    NamesAreGood();
    ps := seq(|windows|, i requires 0 <= i < |windows| => Window(windows[i].0, windows[i].1));
    forall i | 0 <= i < |ps| ensures Listed(NameOf, ps[i]) && EndAt(ps[i]) == windows[i].0 + windows[i].1 {
      assert windows[i] in windows;
      WindowListed(windows[i].0, windows[i].1);
    }
  }

  // ---- maps

  lemma MapUri()
    ensures AttrUri(MAP_LINE) == Some("init")
  {
    hide AttrUri;
    MapTagRead("init");
    assert MAP_LINE == MapTag("init");
  }

  /** Every segment has the one map. */
  function Always(map': string): int -> string { (_: int) => map' }

  lemma {:induction false} MapStays(resolve: Resolver, start: string, lines: seq<string>)
    requires forall l :: l in lines ==> !StartsWith(l, MAP)
    ensures MapAfter(resolve, start, lines) == start
    decreases |lines|
  {
    hide StartsWith, AttrUri;
    if lines != [] {
      assert lines[0] in lines;
      MapStays(resolve, start, lines[1..]);
    }
  }

  lemma NotAMap(line: string)
    requires line == "#EXTM3U" || StartsWith(line, TARGET) || StartsWith(line, SEQUENCE) || line == EXTINF || IsUri(line)
    ensures !StartsWith(line, MAP)
  {
    if line == "#EXTM3U" {
      assert line[..|line|] == line;
      NotBoth(line, line, MAP, 4);
    } else if line == EXTINF {
      assert line[..|line|] == line;
      NotBoth(line, line, MAP, 4);
    } else if IsUri(line) {
      MapHead(line);
    } else {
      NotBoth(line, TARGET, MAP, 7);
      NotBoth(line, SEQUENCE, MAP, 8);
    }
  }

  lemma MapHead(line: string)
    ensures StartsWith(line, MAP) ==> IsTag(line)
  {
    assert StartsWith(line, MAP) ==> line[0] == line[..|MAP|][0];
  }

  /** Behind the tag of the map, that map is in force. */
  lemma MapInForce(resolve: Resolver, start: string, head: seq<string>, more: seq<string>)
    requires forall l :: l in head || l in more ==> !StartsWith(l, MAP)
    ensures MapAfter(resolve, start, head + ([MAP_LINE] + more)) == resolve("init")
  {
    MapLine();
    MapUri();
    hide StartsWith, AttrUri, Plain, Unsupported, OneLine, Trim;
    MapConcat(resolve, start, head, [MAP_LINE] + more);
    var here := MapAfter(resolve, start, head);
    assert ([MAP_LINE] + more)[1..] == more;
    MapStays(resolve, resolve("init"), more);
  }

  lemma WindowKeepsMaps(resolve: Resolver, from: nat, n: nat)
    requires 0 < n && from + n < 0x8000_0000
    ensures KeepsMaps(resolve, Always(resolve("init")), Window(from, n))
  {
    hide Lines, Header, Analysis, NameOf, Uris, Plain, Tagged, Infs, Window, BodyLines, MapAfter, StartsWith;
    var a, b, c := WindowLines(from, n);
    var head, more := [a] + [b] + [c], BodyLines(from, n);
    SegmentLines(from, n);
    WindowNumbers(from, n);
    MapLine();
    HeaderLine(a);
    HeaderLine(b);
    HeaderLine(c);
    var lines := head + ([MAP_LINE] + more);
    assert lines == [a] + ([b] + ([c] + MappingLines(from, n)));
    forall l | l in head || l in more ensures !StartsWith(l, MAP) {
      NotAMap(l);
    }
    forall start: string, k | 0 <= k < |lines| && IsUri(lines[k])
      ensures MapAfter(resolve, start, lines[..k]) == resolve("init")
    {
      assert k >= 4 && lines[..k] == head + ([MAP_LINE] + more[..k - 4]);
      assert forall l :: l in more[..k - 4] ==> l in more;
      MapInForce(resolve, start, head, more[..k - 4]);
    }
    forall start ensures MapAfter(resolve, start, lines) == resolve("init") {
      MapInForce(resolve, start, head, more);
    }
  }

  // ---- a run

  lemma WindowFlags(from: nat, n: nat)
    requires from + n < 0x8000_0000
    ensures !Analysis(Window(from, n)).master && !Analysis(Window(from, n)).unsupported
    ensures IsManifest(Window(from, n)) && NUL !in Window(from, n)
  {
    hide Lines, Header, NameOf, Uris, Plain, Tagged, Infs, ScanLines, StartsWith, Unsupported;
    hide IsManifest, Decimal, SignedDecimal, Int32, Mapping, MappingLines, IsUri;
    var a, b, c := WindowLines(from, n);
    var lines := MappingLines(from, n);
    var all := [a] + ([b] + ([c] + lines));
    MappingFacts(from, n);
    MapLine();
    HeaderFlags(6, SignedDecimal(Int32(Int32(from - 1) + 1)));
    InfFlags();
    Flags(EMPTY_SCAN, all);
    forall l | l in all ensures !StartsWith(l, STREAM) && !Unsupported(l) {
      if l in lines && l != EXTINF && l != MAP_LINE {
        UriIsPlain(l);
      }
    }
    LinesOfMapping(from, n);
    SplicedIsManifest(6, from - 1, Mapping(from, n));
    HeaderIsText(6, from - 1);
  }

  lemma InfFlags()
    ensures !StartsWith(EXTINF, STREAM) && !Unsupported(EXTINF)
  {
    NotBoth(EXTINF, EXTINF, STREAM, 4);
    InfIsNothingElse(EXTINF);
    assert EXTINF[..|EXTINF|] == EXTINF;
  }

  const GOOD := Attempt(false, true, Good, true, Good)

  function FullRound(text: string): Round {
    Round(false, Download(Bad, ""), Download(Good, text), true, false, [GOOD])
  }

  lemma FullRoundWalks(url: string, n: nat)
    requires n < 0x8000_0000
    ensures
      var r, p := FullRound(Window(0, n)), Start(url);
      Walks(p, r) && FetchManifest(p, r).text == Window(0, n) && RefreshOf(p, r).script == [GOOD]
  {
    hide Window, Analysis, IsManifest, Seen;
    WindowFlags(0, n);
    SeenWhole(Window(0, n));
  }

  /** The theorems about live runs speak of runs that play something. */
  lemma ARunPlays(urls: UrlResolver, url: string)
    ensures
      var text := Window(0, 1);
      var r := FullRound(text);
      && Published(NameOf, [text]) && AllDelivered([text], 0, [r], [Glimpse(0, 0, 0)])
      && PlayRounds(urls, Start(url), [r]).done == [Segment(0, NameOf(0))]
  {
    hide Window, Published, PlayRound, NameOf, Seen, Walks, FetchManifest;
    var text, r, p := Window(0, 1), FullRound(Window(0, 1)), Start(url);
    var ps := WindowsArePublished([(0, 1)]);
    assert ps == [text];
    WindowFlags(0, 1);
    SeenWhole(text);
    assert Delivered([text], 0, r, Glimpse(0, 0, 0));
    FullRoundWalks(url, 1);
    RoundWalks(urls, p, r);
    FirstSegment(Against(urls, url), p.mem, RefreshOf(p, r));
    var t := PlayRound(urls, p, r);
    assert [r][1..] == [] && t.done + [] == t.done;
  }

  lemma FirstSegment(resolve: Resolver, m: Memory, r: Refresh)
    requires !m.haveLast && r.text == Window(0, 1) && r.script == [GOOD]
    ensures Play(resolve, m, r).done == [Segment(0, NameOf(0))]
  {
    hide Window, Lines, NameOf, WalkLines, Uris, BodyLines, Analysis;
    WindowNumbers(0, 1);
    SegmentLines(0, 1);
    var info, uris := InfoOf(r), Uris(false, Lines(r.text));
    assert uris == [NameOf(0)];
    assert JoinIndex(m, info, r.big) == 0 && AfterRestart(m, info) == m;
    GoodWalk(resolve, info, 0, StartWalk(m, r.script), Lines(r.text));
    WalkAchieves(resolve, info, 0, StartWalk(m, r.script), Lines(r.text));
    assert uris[0..] == uris && uris[1..] == [];
    assert Numbered(uris, 0) == [Segment(0, uris[0])] + Numbered([], 1);
  }

  // ---- a run with a tail refresh

  const MANY := 1300

  lemma WindowTarget(from: nat, n: nat)
    requires from + n < 0x8000_0000
    ensures Analysis(Window(from, n)).target == 6
  {
    var a, b, c := WindowLines(from, n);
    var lines := MappingLines(from, n);
    hide Lines, ScanTag, Plain, Window, Decimal, SignedDecimal, Signed, Int32, MappingLines, StartsWith, IsUri;
    var s1, s2 := ScanLine(EMPTY_SCAN, a), ScanLine(ScanLine(EMPTY_SCAN, a), b);
    MarkScans(EMPTY_SCAN);
    ScanFirst(EMPTY_SCAN, a, [b] + ([c] + lines));
    ScanFirst(s1, b, [c] + lines);
    ScanFirst(s2, c, lines);
    TargetIs(s1, 6);
    SequenceKeeps(s2, SignedDecimal(Int32(Int32(from - 1) + 1)));
    MappingFacts(from, n);
    MapLine();
    InfTag();
    PlainKeepsNumbering(ScanLine(s2, c), lines);
  }

  lemma TargetIs(a: Scan, n: nat)
    requires n < 0x1_0000_0000
    ensures ScanLine(a, TARGET + Decimal(n)).info.target == n
  {
    var line := TARGET + Decimal(n);
    assert line[..|TARGET|] == TARGET && line[|TARGET|..] == Decimal(n) && line[0] == '#';
    SignedReadBack(n);
    hide Decimal, Signed;
  }

  lemma SequenceKeeps(a: Scan, number: string)
    ensures ScanLine(a, SEQUENCE + number).info.target == a.info.target
  {
    var line := SEQUENCE + number;
    assert line[..|SEQUENCE|] == SEQUENCE && line[0] == '#';
    NotBoth(line, SEQUENCE, TARGET, 7);
    hide StrToLL;
  }

  lemma {:induction false} BodyLength(from: nat, n: nat)
    requires from + n < 0x8000_0000
    ensures 10 * n <= |Body(from, n)| <= 20 * n
    decreases n
  {
    BodyUnfolds(from, n);
    if n > 0 {
      BodyLength(from + 1, n - 1);
      NameLength(from);
      hide Body, NameOf;
      SegmentLength(NameOf(from), Body(from + 1, n - 1));
    }
  }

  lemma NameLength(n: int)
    requires IsNumber(n)
    ensures 2 <= |NameOf(n)| <= 11
  {
    TenDigits();
    DecimalLength(n, 10);
    hide Decimal, Power10;
  }

  lemma SegmentLength(uri: string, rest: string)
    ensures |EXTINF + "\n" + (uri + "\n" + rest)| == |uri| + |rest| + 9
  {
  }

  /** A body in two parts, around one of its segments. */
  lemma {:induction false} BodySplits(from: nat, n: nat, more: nat)
    ensures Body(from, n + more) == Body(from, n) + Body(from + n, more)
    decreases n
  {
    hide NameOf;
    if n == 0 {
      assert Body(from, 0) == "";
    } else {
      BodySplits(from + 1, n - 1, more);
      var x, y := Body(from + 1, n - 1), Body(from + n, more);
      BodyUnfolds(from, n);
      BodyUnfolds(from, n + more);
      hide Body;
      Reassociated(EXTINF + "\n", NameOf(from) + "\n", x, y);
    }
  }

  lemma Reassociated(a: string, b: string, x: string, y: string)
    ensures a + (b + (x + y)) == a + (b + x) + y
  {
  }

  lemma BodyEnds(from: nat, n: nat)
    ensures Tail.Complete(Body(from, n))
    decreases n
  {
    BodyUnfolds(from, n);
    hide Body, NameOf;
    if n > 0 {
      BodyEnds(from + 1, n - 1);
      var rest := Body(from + 1, n - 1);
      assert rest != "" ==> Body(from, n)[|Body(from, n)| - 1] == rest[|rest| - 1];
    }
  }

  /** The playlist around its segment `n`: what is in front of it, and one more segment behind it. */
  function Around(n: nat): Anchored {
    Anchored(Header(6, -1) + (MAP_LINE + "\n" + Body(0, n) + (EXTINF + "\n")), NameOf(n), "\n", Body(n + 1, 1))
  }

  lemma AroundIsWindow(n: nat)
    ensures TextOf(Around(n)) == Window(0, n + 2) && TailOf(Around(n), Around(n).before) == Window(0, n + 2)
  {
    var h, m, x, e, u, z := Header(6, -1), MAP_LINE + "\n", Body(0, n), EXTINF + "\n", NameOf(n), Body(n + 1, 1);
    WindowParts(n);
    Rejoined(h, m, x, e, u, "\n", z);
    hide Body, Header, NameOf, Window;
  }

  lemma WindowParts(n: nat)
    ensures
      Window(0, n + 2) ==
      Header(6, -1) + (MAP_LINE + "\n" + (Body(0, n) + (EXTINF + "\n" + (NameOf(n) + "\n" + Body(n + 1, 1)))))
  {
    hide *;
    WindowIs(0, n + 2);
    BodySplits(0, n, 2);
    BodyUnfolds(n, 2);
  }

  lemma WindowIs(from: nat, n: nat)
    ensures Window(from, n) == Header(6, from - 1) + (MAP_LINE + "\n" + Body(from, n))
  {
    hide Header, Body;
  }

  lemma Rejoined(h: string, m: string, x: string, e: string, u: string, end: string, z: string)
    ensures h + (m + (x + (e + (u + end + z)))) == h + (m + x + e) + (u + end + z)
  {
    var w := u + end + z;
    assert m + (x + (e + w)) == m + x + e + w;
    assert h + (m + x + e + w) == h + (m + x + e) + w;
  }

  lemma NameIsAnchor(n: nat)
    requires IsNumber(n)
    ensures AnchorLine(NameOf(n))
  {
    NameIsUri(n);
    hide NameOf, Trim, OneLine;
  }

  lemma LastOfSum(a: string, b: string)
    requires b != ""
    ensures a + b != "" && (a + b)[|a + b| - 1] == b[|b| - 1]
  {
  }

  lemma AroundIsAnchored(n: nat)
    requires n + 2 < 0x8000_0000
    ensures AnchoredOk(Around(n)) && Tail.Complete(Around(n).before) && Around(n).before != ""
  {
    hide Header, Body, Plain, NameOf, Lines, BodyLines, AnchorLine, IsUri, Uris, Infs, Tagged;
    NameIsAnchor(n);
    NameIsAnchor(n + 1);
    LinesOfBody(n + 1, 1);
    SegmentLines(n + 1, 1);
    InfTag();
    NamesOfOne(n + 1);
    NameIsNotInf(n);
    if NameOf(n) == NameOf(n + 1) {
      NamesDiffer(n, n + 1);
    }
    LastOfSum(Header(6, -1) + (MAP_LINE + "\n" + Body(0, n)), EXTINF + "\n");
    var h, m, x, e := Header(6, -1), MAP_LINE + "\n", Body(0, n), EXTINF + "\n";
    assert h + (m + x + e) == h + (m + x) + e;
    assert e[|e| - 1] == '\n';
  }

  lemma NameIsNotInf(n: nat)
    requires IsNumber(n)
    ensures NameOf(n) != EXTINF
  {
    NameIsUri(n);
    InfTag();
    hide NameOf;
  }

  lemma NamesOfOne(n: nat)
    ensures BodyLines(n, 1) == [EXTINF, NameOf(n)]
  {
    assert BodyLines(n + 1, 0) == [];
    hide NameOf;
  }

  function Goods(n: nat): (r: seq<Attempt>)
    ensures |r| == n && forall a :: a in r ==> a == GOOD
  {
    if n == 0 then [] else [GOOD] + Goods(n - 1)
  }

  /** The first round downloads a big playlist whole, the second one its tail. */
  function BigRound(): Round { Round(false, Download(Bad, ""), Download(Good, Window(0, MANY)), true, false, Goods(MANY)) }

  function TailTurn(): Round {
    Round(false, Download(Good, Window(0, MANY + 1)), Download(Bad, ""), true, false, [GOOD])
  }

  lemma BigText(n: nat)
    requires MANY <= n <= MANY + 1
    ensures TAIL_MIN < |Window(0, n)| < MANIFEST_MAX && |Header(6, MANY - 1)| + |Body(MANY, 1)| < MANIFEST_MAX
  {
    BodyLength(0, n);
    BodyLength(MANY, 1);
    HeaderIsSmall(-1);
    HeaderIsSmall(MANY - 1);
    hide Body, Header;
  }

  lemma HeaderIsSmall(lastSeq: int)
    requires -1 <= lastSeq < 0x7FFF_FFFF
    ensures |Header(6, lastSeq)| < 100
  {
    HeaderLength(6, lastSeq);
    OneDigit();
    Int32Next(lastSeq);
    TenDigits();
    DecimalLength(lastSeq + 1, 10);
    hide Decimal, Int32, Header, Power10;
  }

  /** A walk over the big playlist that joins it near its end plays up to its last segment. */
  lemma BigWalk(resolve: Resolver, m: Memory)
    requires !m.haveLast
    ensures
      var (w, v) := Process(resolve, m, true, Analysis(Window(0, MANY)), Window(0, MANY), Goods(MANY));
      v == Going && w.done != [] && w.mem.haveLast && w.mem.lastSeq == MANY - 1 && w.mem.lastUri == NameOf(MANY - 1)
  {
    hide Window, Lines, NameOf, WalkLines, Uris, BodyLines, Analysis, Achieved, Plan, Clip, JoinIndex;
    WindowNumbers(0, MANY);
    SegmentLines(0, MANY);
    var text, info := Window(0, MANY), Analysis(Window(0, MANY));
    var uris, first, w := Uris(false, Lines(text)), JoinIndex(m, info, true), StartWalk(m, Goods(MANY));
    assert AfterRestart(m, info) == m;
    JoinsInside(m, info);
    assert AllSucceed(Goods(MANY));
    GoodWalk(resolve, info, first, w, Lines(text));
    WalkAchieves(resolve, info, first, w, Lines(text));
    PlanEnds(m, info, first, uris);
    WholePlan(w, Plan(m, info, 0, first, uris), WalkLines(resolve, info, first, w, Lines(text)));
    var (t, v) := WalkLines(resolve, info, first, w, Lines(text));
    HaveLast(w, Plan(m, info, 0, first, uris), t, v);
    NameIsUri(MANY - 1);
    ClipFits(NameOf(MANY - 1));
  }

  lemma HaveLast(w: Walk, plan: seq<Segment>, t: Walk, v: Verdict)
    requires Achieved(w, plan, t, v) && w.done == [] && t.done != []
    ensures t.mem.haveLast
  {
  }

  lemma JoinsInside(m: Memory, info: Info)
    requires info.nseg > 0
    ensures JoinIndex(m, info, true) < info.nseg
  {
  }

  lemma PlanEnds(m: Memory, info: Info, first: nat, uris: seq<string>)
    requires !m.haveLast && first < |uris|
    ensures
      var plan := Plan(m, info, 0, first, uris);
      plan != [] && plan[|plan| - 1] == Segment(info.mediaSeq + |uris| - 1, uris[|uris| - 1])
  {
    NumberedAt(uris[first..], info.mediaSeq + first, |uris| - first - 1);
  }

  /** What the player holds after the first round. */
  lemma BigRoundPlays(urls: UrlResolver, url: string)
    ensures
      var t := PlayRound(urls, Start(url), BigRound());
      && t.result == None && t.p.mem.haveLast && t.p.mem.lastSeq == MANY - 1 && t.p.mem.lastUri == NameOf(MANY - 1)
      && t.p.big && t.p.target == 6 && t.p.url == url
  {
    hide Window, Analysis, IsManifest, Seen, NameOf, Process;
    WindowFlags(0, MANY);
    SeenWhole(Window(0, MANY));
    BigText(MANY);
    WindowTarget(0, MANY);
    BigWalk(Against(urls, url), Start(url).mem);
  }

  /** The tail found in the second round. */
  lemma TailIsSpliced()
    ensures
      Spliced(Window(0, MANY + 1), NameOf(MANY - 1), 6, MANY - 1) == Some(Header(6, MANY - 1) + Body(MANY, 1))
  {
    hide Window, Header, Body, NameOf, Spliced, AnchoredOk, TextOf, TailOf, Tail.Complete;
    AroundIsWindow(MANY - 1);
    AroundIsAnchored(MANY - 1);
    BigText(MANY);
    SpliceFinds(Around(MANY - 1), Around(MANY - 1).before, 6, MANY - 1);
  }

  lemma SplicedIsPlayable()
    ensures
      var text := Header(6, MANY - 1) + Body(MANY, 1);
      IsManifest(text) && !Analysis(text).master && !Analysis(text).unsupported
  {
    hide Lines, Header, NameOf, Plain, ScanLines, StartsWith, Unsupported, IsManifest, Decimal, SignedDecimal, Int32, Body;
    hide BodyLines, IsUri, Uris, Tagged, Infs;
    var number := SignedDecimal(Int32(Int32(MANY - 1) + 1));
    var a, b, c, lines := "#EXTM3U", TARGET + Decimal(6), SEQUENCE + number, BodyLines(MANY, 1);
    HeaderLines(6, MANY - 1, Body(MANY, 1));
    LinesOfBody(MANY, 1);
    SegmentLines(MANY, 1);
    HeaderFlags(6, number);
    InfFlags();
    var all := [a, b, c] + lines;
    Flags(EMPTY_SCAN, all);
    forall l | l in all ensures !StartsWith(l, STREAM) && !Unsupported(l) {
      if l in lines && l != EXTINF {
        UriIsPlain(l);
      }
    }
    SplicedIsManifest(6, MANY - 1, Body(MANY, 1));
  }

  lemma TailTurnWalks(p: Player)
    requires p.big && p.target == 6 && p.mem.haveLast && p.mem.lastSeq == MANY - 1 && p.mem.lastUri == NameOf(MANY - 1)
    ensures WalksTail(p, TailTurn())
  {
    hide Window, Analysis, IsManifest, Seen, Spliced, Header, Body;
    NameLength(MANY - 1);
    hide NameOf;
    WindowFlags(0, MANY + 1);
    SeenWhole(Window(0, MANY + 1));
    TailIsSpliced();
    SplicedIsPlayable();
  }

  /** The theorem about tail refreshes speaks of runs that have one. */
  lemma ATailIsWalked(urls: UrlResolver, url: string)
    ensures
      var ps, rs := [Window(0, MANY), Window(0, MANY + 1)], [BigRound(), TailTurn()];
      && Kept(urls, url, NameOf, Always(urls(url, "init")), ps)
      && AllDelivered(ps, 0, rs, [Glimpse(0, 0, 0), Glimpse(1, 0, 1)]) && AtBase(urls, url, Start(url), rs)
      && PlayRound(urls, Start(url), rs[0]).result == None
      && WalksTail(PlayRound(urls, Start(url), rs[0]).p, rs[1])
  {
    hide Window, PlayRound, NameOf, Published, MapsKept, Walks, WalksTail, Delivered, BigRound, TailTurn;
    var ps, rs := [Window(0, MANY), Window(0, MANY + 1)], [BigRound(), TailTurn()];
    var found := WindowsArePublished([(0, MANY), (0, MANY + 1)]);
    assert found == ps;
    MapsOfBoth(urls, url);
    BigRoundPlays(urls, url);
    TailTurnWalks(PlayRound(urls, Start(url), BigRound()).p);
    BothDelivered();
    assert rs[1..] == [TailTurn()] && [TailTurn()][1..] == [];
    var gs := [Glimpse(0, 0, 0), Glimpse(1, 0, 1)];
    assert gs[1..] == [Glimpse(1, 0, 1)] && [Glimpse(1, 0, 1)][1..] == [];
  }

  lemma MapsOfBoth(urls: UrlResolver, url: string)
    ensures MapsKept(Against(urls, url), Always(urls(url, "init")), [Window(0, MANY), Window(0, MANY + 1)])
  {
    hide Window, KeepsMaps, Analysis, Always, Lines, BodyLines, Uris;
    WindowKeepsMaps(Against(urls, url), 0, MANY);
    WindowKeepsMaps(Against(urls, url), 0, MANY + 1);
    WindowNumbers(0, MANY);
    WindowNumbers(0, MANY + 1);
  }

  lemma BothDelivered()
    ensures
      var ps := [Window(0, MANY), Window(0, MANY + 1)];
      Delivered(ps, 0, BigRound(), Glimpse(0, 0, 0)) && Delivered(ps, 0, TailTurn(), Glimpse(1, 0, 1))
  {
    hide Window, Analysis, Seen;
    WindowFlags(0, MANY);
    WindowFlags(0, MANY + 1);
    SeenWhole(Window(0, MANY));
    SeenWhole(Window(0, MANY + 1));
    assert Window(0, MANY + 1)[0..] == Window(0, MANY + 1);
  }
}
