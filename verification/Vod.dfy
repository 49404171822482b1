/** A finished playlist is played from first to last exactly once, and then the run ends. */
module Vod {
  import opened Bytes
  import opened Text
  import opened Playlist
  import opened Schedule
  import opened Runs
  import opened Tail
  import opened PlayerSpec

  predicate Succeeds(a: Attempt) { !a.stop && a.demux && a.init == Good && a.url && a.media == Good }

  ghost predicate AllSucceed(script: seq<Attempt>) { forall a :: a in script ==> Succeeds(a) }

  lemma GoodFetch(w: Walk, disc: bool, seqNo: int, line: string)
    requires w.script != [] && Succeeds(w.script[0])
    ensures var (t, v) := FetchSegment(w, disc, seqNo, line); v == Going && t.script == w.script[1..]
  {
    GoodInit(w.(script := w.script[1..]), disc, w.script[0]);
    hide FetchInit;
  }

  lemma GoodInit(w: Walk, disc: bool, a: Attempt)
    requires a.init == Good
    ensures FetchInit(w, disc, a).1 == Going && FetchInit(w, disc, a).0.script == w.script
  {
  }

  /** When all downloads succeed, a walk gets through. */
  lemma {:induction false} GoodWalk(resolve: Resolver, info: Info, first: nat, w: Walk, lines: seq<string>)
    requires AllSucceed(w.script) && |Uris(w.pending, lines)| <= |w.script|
    ensures WalkLines(resolve, info, first, w, lines).1 == Going
    decreases |lines|
  {
    hide FetchSegment, WalkTag, IsTag, Wanted;
    if lines != [] {
      var line := lines[0];
      var (w1, v) := WalkLine(resolve, info, first, w, line);
      if IsTag(line) {
        TagKeeps(resolve, w, line);
      } else if line != "" && w.pending {
        var w2 := w.(idx := w.idx + 1, pending := false, disc := false);
        assert w.script[0] in w.script;
        GoodFetch(w2, w.disc, info.mediaSeq + w.idx, line);
        FetchKeeps(w2, w.disc, info.mediaSeq + w.idx, line);
      }
      assert AllSucceed(w1.script) by {
        assert forall a :: a in w1.script ==> a in w.script;
      }
      GoodWalk(resolve, info, first, w1, lines[1..]);
    }
  }

  /** A playlist whose last segment is the anchor, with an end mark behind it. */
  ghost predicate Finished(p: Anchored) {
    && AnchoredOk(p) && PendingAfter(false, Lines(p.before)) && Uris(false, Lines(p.after)) == []
    && ENDLIST in Lines(p.after)
    && NUL !in TextOf(p) && |TextOf(p)| < MANIFEST_MAX && IsManifest(TextOf(p))
    && !Analysis(TextOf(p)).master && !Analysis(TextOf(p)).unsupported
    && -0x8000_0000 <= LastNumber(p) < 0x7FFF_FFFF
  }

  function LastNumber(p: Anchored): int { Analysis(TextOf(p)).mediaSeq + |Uris(false, Lines(p.before))| }

  function AllSegments(p: Anchored): seq<Segment> {
    Numbered(Uris(false, Lines(TextOf(p))), Analysis(TextOf(p)).mediaSeq)
  }

  lemma SeenWhole(body: string)
    requires NUL !in body
    ensures Seen(body) == body
  {
    CStrIs(body + [NUL], 0, body);
  }

  lemma FinishedUris(p: Anchored)
    requires AnchoredOk(p) && PendingAfter(false, Lines(p.before)) && Uris(false, Lines(p.after)) == []
    ensures Uris(false, Lines(TextOf(p))) == Uris(false, Lines(p.before)) + [p.uri]
  {
    hide Lines, AnchorLine, Plain;
    PlaylistLines(p);
    UrisConcat(false, Lines(p.before), [p.uri] + Lines(p.after));
    AnchorCounts(p);
  }

  lemma FinishedFlags(p: Anchored)
    requires AnchoredOk(p) && ENDLIST in Lines(p.after)
    ensures Analysis(TextOf(p)).endlist
  {
    hide Lines, AnchorLine, Plain;
    PlaylistLines(p);
    Flags(EMPTY_SCAN, Lines(TextOf(p)));
  }

  lemma LastOfNumbered(uris: seq<string>, u: string, from: int)
    ensures var ss := Numbered(uris + [u], from);
            ss != [] && ss[|ss| - 1] == Segment(from + |uris|, u)
  {
    NumberedAt(uris + [u], from, |uris|);
  }

  /** Walking the playlist for the first time plays everything. */
  lemma FirstWalk(urls: UrlResolver, p: Player, pl: Anchored, script: seq<Attempt>)
    requires !p.mem.haveLast && Finished(pl)
    requires AllSucceed(script) && |Uris(false, Lines(TextOf(pl)))| <= |script|
    ensures
      var t := PlayMedia(urls, p, Analysis(TextOf(pl)), TextOf(pl), script);
      && t.result == None && t.done == AllSegments(pl)
      && AnchorsMemory(pl, t.p.mem) && t.p.mem.lastSeq == LastNumber(pl)
  {
    hide Lines, Analysis, WalkLines, TextOf, AnchoredOk, Numbered, Uris, Clip, IsManifest;
    var text, info := TextOf(pl), Analysis(TextOf(pl));
    FinishedUris(pl);
    FinishedFlags(pl);
    var uris, w := Uris(false, Lines(text)), StartWalk(p.mem, script);
    assert JoinIndex(p.mem, info, p.big) == 0;
    GoodWalk(Against(urls, p.url), info, 0, w, Lines(text));
    WalkAchieves(Against(urls, p.url), info, 0, w, Lines(text));
    assert uris[0..] == uris;
    var plan := Plan(p.mem, info, 0, 0, uris);
    assert plan == Numbered(uris, info.mediaSeq);
    WholePlan(w, plan, WalkLines(Against(urls, p.url), info, 0, w, Lines(text)));
    LastOfNumbered(Uris(false, Lines(pl.before)), pl.uri, info.mediaSeq);
    ClipShort(pl);
  }

  /** The first round plays everything. */
  lemma FirstRound(urls: UrlResolver, p: Player, pl: Anchored, r: Round)
    requires !p.mem.haveLast && Finished(pl)
    requires !r.stop && r.memory && r.full == Download(Good, TextOf(pl))
    requires AllSucceed(r.script) && |Uris(false, Lines(TextOf(pl)))| <= |r.script|
    ensures var t := PlayRound(urls, p, r);
            && t.result == None && t.done == AllSegments(pl)
            && AnchorsMemory(pl, t.p.mem) && t.p.mem.lastSeq == LastNumber(pl)
  {
    hide Lines, Analysis, IsManifest, TextOf, PlayMedia, AnchorsMemory, AllSegments, LastNumber, AllSucceed, Uris;
    var text, info := TextOf(pl), Analysis(TextOf(pl));
    SeenWhole(text);
    FinishedFlags(pl);
    var q := p.(big := |text| > TAIL_MIN);
    FirstWalk(urls, if info.target > 0 then q.(target := info.target) else q, pl, r.script);
  }

  lemma ClipShort(p: Anchored)
    requires AnchoredOk(p)
    ensures Clip(p.uri) == p.uri && p.uri != ""
  {
  }

  /** A refresh of the whole playlist ends the run. */
  lemma FullEnds(urls: UrlResolver, p: Player, pl: Anchored, script: seq<Attempt>)
    requires Finished(pl) && AnchorsMemory(pl, p.mem)
    ensures var t := PlayMedia(urls, p, Analysis(TextOf(pl)), TextOf(pl), script);
            t.result == Some(Ended) && t.done == []
  {
    hide Lines, Analysis, WalkLines, IsManifest, TextOf, JoinIndex;
    FinishedUris(pl);
    FinishedFlags(pl);
    NotRestarted(pl, p.mem);
    var info := Analysis(TextOf(pl));
    NoneWanted(Against(urls, p.url), info, JoinIndex(p.mem, info, p.big), StartWalk(p.mem, script), Lines(TextOf(pl)));
  }

  // ---- the tail path

  lemma {:induction false} LineEndLater(s: string, j: nat)
    requires j <= LineEnd(s)
    ensures LineEnd(s[j..]) == LineEnd(s) - j
  {
    if j > 0 {
      LineEndLater(s[1..], j - 1);
      assert s[1..][j - 1..] == s[j..];
    } else {
      assert s[0..] == s;
    }
  }

  /** A URI that is not among the later lines of a text is not found however late the text is cut. */
  lemma {:induction false} LateCut(s: string, j: nat, uri: string)
    requires j <= |s| && uri !in Lines(AfterLine(s))
    ensures uri !in Lines(AfterLine(s[j..]))
    decreases |s|
  {
    if j <= LineEnd(s) {
      SameRest(s, j);
    } else {
      CutLater(s, j);
      hide Lines, LineEnd, AfterLine;
      var later := AfterLine(s);
      if later != "" {
        LaterLines(later, uri);
        LateCut(later, j - LineEnd(s) - 1, uri);
      } else {
        NothingAfter();
        NoLines();
      }
    }
  }

  lemma CutLater(s: string, j: nat)
    requires LineEnd(s) < j <= |s|
    ensures j - LineEnd(s) - 1 <= |AfterLine(s)| && s[j..] == AfterLine(s)[j - LineEnd(s) - 1..]
    ensures AfterLine(s) == "" ==> s[j..] == ""
  {
    hide LineEnd;
  }

  lemma NothingAfter()
    ensures AfterLine("") == ""
  {
  }

  lemma SameRest(s: string, j: nat)
    requires j <= LineEnd(s)
    ensures AfterLine(s[j..]) == AfterLine(s)
  {
    LineEndLater(s, j);
    hide LineEnd;
    SuffixOfSuffix(s, j, LineEnd(s) + 1);
  }

  lemma SuffixOfSuffix(s: string, j: nat, k: nat)
    requires j <= k
    ensures k <= |s| ==> s[j..][k - j..] == s[k..]
  {
  }

  lemma LaterLines(s: string, uri: string)
    requires s != "" && uri !in Lines(s)
    ensures uri !in Lines(AfterLine(s))
  {
    assert Lines(s)[1..] == Lines(AfterLine(s));
  }

  /** A tail that is cut inside or behind the anchor line is not spliced. */
  lemma CutTooLate(p: Anchored, i: nat, target: nat, lastSeq: int)
    requires AnchoredOk(p) && |p.before| <= i <= |TextOf(p)|
    ensures Spliced(TextOf(p)[i..], p.uri, target, lastSeq) == None
  {
    hide Lines, LineEnd, AfterLine, Header, Plain;
    var s := p.uri + p.eol + p.after;
    AnchorFirst(p);
    assert TextOf(p)[i..] == s[i - |p.before|..];
    LateCut(s, i - |p.before|, p.uri);
    NotFound(AfterLine(s[i - |p.before|..]), p.uri);
  }

  lemma SplicedFlags(p: Anchored, target: nat, lastSeq: int)
    requires Finished(p)
    ensures var info := Analysis(Header(target, lastSeq) + p.after);
            info.endlist && !info.master && !info.unsupported
  {
    hide Lines, AnchorLine, Plain, Header, Decimal, SignedDecimal, Int32, StartsWith, Unsupported, ScanLines, IsManifest;
    var a, b, c := "#EXTM3U", TARGET + Decimal(target), SEQUENCE + SignedDecimal(Int32(Int32(lastSeq) + 1));
    var lines := Lines(p.after);
    HeaderLines(target, lastSeq, p.after);
    HeaderFlags(target, SignedDecimal(Int32(Int32(lastSeq) + 1)));
    Flags(EMPTY_SCAN, [a, b, c] + lines);
    PlaylistLines(p);
    Flags(EMPTY_SCAN, Lines(TextOf(p)));
    assert forall l :: l in lines ==> l in Lines(TextOf(p));
    assert forall l :: l in [a, b, c] + lines ==> l == a || l == b || l == c || l in lines;
  }

  lemma HeaderFlags(target: nat, number: string)
    ensures !StartsWith("#EXTM3U", STREAM) && !Unsupported("#EXTM3U")
    ensures !StartsWith(TARGET + Decimal(target), STREAM) && !Unsupported(TARGET + Decimal(target))
    ensures !StartsWith(SEQUENCE + number, STREAM) && !Unsupported(SEQUENCE + number)
  {
    var b, c := TARGET + Decimal(target), SEQUENCE + number;
    assert b[..|TARGET|] == TARGET && c[..|SEQUENCE|] == SEQUENCE;
    NotBoth(b, TARGET, STREAM, 7);
    NotBoth(b, TARGET, KEY, 7);
    NotBoth(b, TARGET, RANGE, 7);
    NotBoth(c, SEQUENCE, STREAM, 7);
    NotBoth(c, SEQUENCE, KEY, 7);
    NotBoth(c, SEQUENCE, RANGE, 7);
  }

  lemma SplicedIsManifest(target: nat, lastSeq: int, rest: string)
    ensures IsManifest(Header(target, lastSeq) + rest)
  {
    hide Header, Contains;
    var mark, tag, t := "#EXTM3U", "#EXT-X-TARGETDURATION", Header(target, lastSeq) + rest;
    var behind := HeaderStarts(target, lastSeq, rest);
    ContainsAt(mark + "\n", tag, behind);
    Regrouped(mark, "\n", tag, behind);
    ContainsAt("", mark, "\n" + tag + behind);
    assert "" + mark == mark;
  }

  lemma HeaderStarts(target: nat, lastSeq: int, rest: string) returns (behind: string)
    ensures Header(target, lastSeq) + rest == "#EXTM3U" + "\n" + "#EXT-X-TARGETDURATION" + behind
  {
    HeaderParts(target, lastSeq, rest);
    TargetTag();
    hide *;
    var tag, number := "#EXT-X-TARGETDURATION", Decimal(target);
    var b := SEQUENCE + SignedDecimal(Int32(Int32(lastSeq) + 1)) + "\n" + rest;
    behind := ":" + number + "\n" + b;
    Regrouped(tag, ":", number, "\n" + b);
    assert ":" + number + ("\n" + b) == behind;
    assert tag + ":" + number + ("\n" + b) == tag + ":" + number + "\n" + b;
    assert "#EXTM3U" + "\n" + (tag + behind) == "#EXTM3U" + "\n" + tag + behind;
  }

  lemma Regrouped(a: string, b: string, c: string, d: string)
    ensures a + b + c + d == a + (b + c + d)
  {
  }

  lemma TargetTag()
    ensures TARGET == "#EXT-X-TARGETDURATION" + ":"
  {
  }

  lemma ContainsAt(front: string, part: string, behind: string)
    ensures Contains(front + part + behind, part)
  {
    assert (front + part + behind)[|front|..][..|part|] == part;
  }

  lemma TailEnds(urls: UrlResolver, p: Player, pl: Anchored, target: nat, script: seq<Attempt>)
    requires Finished(pl) && AnchorsMemory(pl, p.mem) && p.mem.lastSeq == LastNumber(pl)
    ensures var text := Header(target, p.mem.lastSeq) + pl.after;
            var t := PlayMedia(urls, p, Analysis(text), text, script);
            t.result == Some(Ended) && t.done == []
  {
    hide Lines, Analysis, WalkLines, IsManifest, TextOf, JoinIndex, Header;
    var text := Header(target, p.mem.lastSeq) + pl.after;
    var info := Analysis(text);
    SplicedFlags(pl, target, p.mem.lastSeq);
    SplicedNotRestarted(p.mem, target, pl.after);
    SplicedWalk(Against(urls, p.url), p.mem, info, JoinIndex(p.mem, info, p.big), pl, target, script);
    NoneWanted(Against(urls, p.url), info, JoinIndex(p.mem, info, p.big), StartWalk(p.mem, script), Lines(pl.after));
  }

  /** The next round ends the run, on the full path and on the tail path. */
  lemma SecondRound(urls: UrlResolver, p: Player, pl: Anchored, r: Round, i: nat)
    requires Finished(pl) && AnchorsMemory(pl, p.mem) && p.mem.lastSeq == LastNumber(pl)
    requires !r.stop && r.memory && r.full == Download(Good, TextOf(pl))
    requires i <= |TextOf(pl)| && r.tail == Download(Good, TextOf(pl)[i..])
    ensures var t := PlayRound(urls, p, r); t.result == Some(Ended) && t.done == []
  {
    hide Lines, Analysis, IsManifest, TextOf, Spliced, PlayMedia, Header, AnchorLine, Plain;
    var text, tail := TextOf(pl), TextOf(pl)[i..];
    SeenWhole(text);
    SeenWhole(tail);
    var m, q := FetchManifest(p, r), p.(big := FetchManifest(p, r).big);
    if WantsTail(p) && Spliced(tail, pl.uri, p.target, p.mem.lastSeq).Some? {
      if i >= |pl.before| {
        CutTooLate(pl, i, p.target, p.mem.lastSeq);
      } else {
        TailIsSuffix(pl, i);
        SplicedText(pl, i, p.target, p.mem.lastSeq);
        assert m.text == Header(p.target, p.mem.lastSeq) + pl.after;
        SplicedIsManifest(p.target, p.mem.lastSeq, pl.after);
        SplicedFlags(pl, p.target, p.mem.lastSeq);
        var info := Analysis(m.text);
        TailEnds(urls, if info.target > 0 then q.(target := info.target) else q, pl, p.target, r.script);
      }
    } else {
      var info := Analysis(text);
      FullEnds(urls, if info.target > 0 then q.(target := info.target) else q, pl, r.script);
    }
  }

  lemma SplicedText(p: Anchored, i: nat, target: nat, lastSeq: int)
    requires AnchoredOk(p) && i < |p.before| && Spliced(TextOf(p)[i..], p.uri, target, lastSeq).Some?
    ensures Spliced(TextOf(p)[i..], p.uri, target, lastSeq) == Some(Header(target, lastSeq) + p.after)
  {
    hide Lines, LineEnd, AfterLine, Trim, DropCr, Plain, Header;
    TailIsSuffix(p, i);
    var cut, s := p.before[i..], p.uri + p.eol + p.after;
    AnchorFirst(p);
    NotFound(p.after, p.uri);
    assert AfterLast(s, p.uri) == Some(p.after);
    FirstOfComplete(cut, s);
    AfterLastSkips(AfterLine(cut), s, p.uri);
    CompleteSplits(cut);
  }

  /**
   * When all downloads succeed, a finished playlist is played from its first to its last segment,
   * each exactly once, and the next refresh ends the run, be it a full or a tail refresh.
   */
  lemma PlayedOnceThenEnded(urls: UrlResolver, p: Player, pl: Anchored, r1: Round, r2: Round, i: nat)
    requires !p.mem.haveLast && Finished(pl)
    requires !r1.stop && r1.memory && r1.full == Download(Good, TextOf(pl))
    requires AllSucceed(r1.script) && |Uris(false, Lines(TextOf(pl)))| <= |r1.script|
    requires !r2.stop && r2.memory && r2.full == Download(Good, TextOf(pl))
    requires i <= |TextOf(pl)| && r2.tail == Download(Good, TextOf(pl)[i..])
    ensures var t := PlayRounds(urls, p, [r1, r2]);
            t.result == Some(Ended) && t.done == AllSegments(pl)
  {
    hide PlayRound, Finished, TextOf, AnchorsMemory, AllSegments;
    FirstRound(urls, p, pl, r1);
    var t := PlayRound(urls, p, r1);
    SecondRound(urls, t.p, pl, r2, i);
    assert [r1, r2][1..] == [r2];
    assert PlayRounds(urls, t.p, [r2]) == PlayRound(urls, t.p, r2);
    assert t.done + [] == t.done;
  }

  // ---- there are finished playlists

  /** The playlist of one segment, with a header as the firmware itself writes it. */
  function OneSegment(uri: string): Anchored {
    Anchored(Header(6, -1) + (EXTINF + "\n"), uri, "\n", ENDLIST + "\n")
  }

  lemma OneSegmentLines(uri: string)
    ensures Lines(OneSegment(uri).after) == [ENDLIST]
    ensures Tail.Complete(OneSegment(uri).before)
    ensures
      Lines(OneSegment(uri).before) ==
      ["#EXTM3U", TARGET + Decimal(6), SEQUENCE + SignedDecimal(Int32(Int32(-1) + 1))] + [EXTINF]
  {
    hide Lines, Header, Decimal, SignedDecimal, Int32, Trim;
    TagsAreLines();
    LastTag();
    NoLines();
    FirstLine(EXTINF, "");
    assert EXTINF + "\n" + "" == EXTINF + "\n";
    HeaderLines(6, -1, EXTINF + "\n");
  }

  /** Its tags: no numbering, variant or unsupported tags behind the header. */
  lemma OneSegmentTags(uri: string)
    requires AnchorLine(uri)
    ensures !StartsWith(uri, STREAM) && !Unsupported(uri) && Plain(uri) && uri != ENDLIST
    ensures !StartsWith(EXTINF, STREAM) && !Unsupported(EXTINF) && Plain(EXTINF)
    ensures !StartsWith(ENDLIST, STREAM) && !Unsupported(ENDLIST) && Plain(ENDLIST)
    ensures IsTag(ENDLIST) && IsTag(EXTINF) && StartsWith(EXTINF, EXTINF)
  {
    NotBoth(ENDLIST, ENDLIST, TARGET, 7);
    NotBoth(ENDLIST, ENDLIST, SEQUENCE, 7);
    NotBoth(ENDLIST, ENDLIST, STREAM, 7);
    NotBoth(ENDLIST, ENDLIST, KEY, 7);
    NotBoth(ENDLIST, ENDLIST, RANGE, 7);
  }

  lemma {:induction false} TagsThenInf(pending: bool, lines: seq<string>)
    requires lines != [] && (forall l :: l in lines ==> IsTag(l)) && StartsWith(lines[|lines| - 1], EXTINF)
    ensures PendingAfter(pending, lines) && Uris(pending, lines) == []
    decreases |lines|
  {
    hide StartsWith;
    assert lines[0] in lines;
    if |lines| > 1 {
      TagsThenInf(pending || StartsWith(lines[0], EXTINF), lines[1..]);
    } else {
      assert lines[1..] == [];
    }
  }

  lemma OneSegmentAnchored(uri: string)
    requires AnchorLine(uri)
    ensures AnchoredOk(OneSegment(uri)) && Uris(false, Lines(OneSegment(uri).after)) == []
    ensures PendingAfter(false, Lines(OneSegment(uri).before)) && Uris(false, Lines(OneSegment(uri).before)) == []
    ensures
      Lines(TextOf(OneSegment(uri))) ==
      ["#EXTM3U", TARGET + Decimal(6), SEQUENCE + SignedDecimal(Int32(Int32(-1) + 1)), EXTINF, uri, ENDLIST]
  {
    hide Lines, AnchorLine, Plain, Header, Decimal, SignedDecimal, Int32, StartsWith, Unsupported;
    OneSegmentLines(uri);
    OneSegmentTags(uri);
    TagsThenInf(false, Lines(OneSegment(uri).before));
    PlaylistLines(OneSegment(uri));
  }

  lemma OneSegmentNumber(uri: string)
    requires AnchorLine(uri)
    ensures Analysis(TextOf(OneSegment(uri))).mediaSeq == 0
    ensures !Analysis(TextOf(OneSegment(uri))).master && !Analysis(TextOf(OneSegment(uri))).unsupported
    ensures IsManifest(TextOf(OneSegment(uri)))
  {
    hide Lines, AnchorLine, Plain, Header, Decimal, SignedDecimal, StartsWith, Unsupported, ScanLines, IsManifest, Analysis;
    var rest := EXTINF + "\n" + (uri + "\n" + (ENDLIST + "\n"));
    assert TextOf(OneSegment(uri)) == Header(6, -1) + rest;
    OneSegmentLines(uri);
    OneSegmentTags(uri);
    OneSegmentRest(uri);
    SplicedInfo(6, -1, rest);
    SplicedIsManifest(6, -1, rest);
    HeaderFlags(6, SignedDecimal(Int32(Int32(-1) + 1)));
    OneSegmentAnchored(uri);
    OneSegmentFlags(uri);
  }

  lemma OneSegmentFlags(uri: string)
    requires AnchorLine(uri)
    ensures !Analysis(TextOf(OneSegment(uri))).master && !Analysis(TextOf(OneSegment(uri))).unsupported
  {
    hide Lines, AnchorLine, Plain, Header, Decimal, SignedDecimal, StartsWith, Unsupported, ScanLines, Int32;
    OneSegmentTags(uri);
    OneSegmentAnchored(uri);
    HeaderFlags(6, SignedDecimal(Int32(Int32(-1) + 1)));
    Flags(EMPTY_SCAN, Lines(TextOf(OneSegment(uri))));
  }

  lemma OneSegmentRest(uri: string)
    requires AnchorLine(uri)
    ensures Lines(EXTINF + "\n" + (uri + "\n" + (ENDLIST + "\n"))) == [EXTINF, uri, ENDLIST]
  {
    TagsAreLines();
    assert OneLine(uri) && Trim(uri) == uri;
    hide *;
    FirstLine(EXTINF, uri + "\n" + (ENDLIST + "\n"));
    FirstLine(uri, ENDLIST + "\n");
    LastTag();
  }

  lemma TagsAreLines()
    ensures OneLine(EXTINF) && Trim(EXTINF) == EXTINF && OneLine(ENDLIST) && Trim(ENDLIST) == ENDLIST
  {
  }

  lemma LastTag()
    ensures Lines(ENDLIST + "\n") == [ENDLIST]
  {
    TagsAreLines();
    hide Lines, Trim;
    NoLines();
    FirstLine(ENDLIST, "");
    assert ENDLIST + "\n" + "" == ENDLIST + "\n";
  }

  /** Every URI line has a finished playlist, so the theorem above speaks about something. */
  lemma OneSegmentIsFinished(uri: string)
    requires AnchorLine(uri) && NUL !in uri
    ensures Finished(OneSegment(uri)) && AllSegments(OneSegment(uri)) == [Segment(0, uri)]
  {
    hide Lines, AnchorLine, Plain, Header, Decimal, SignedDecimal, StartsWith, Unsupported, ScanLines, IsManifest, Analysis;
    OneSegmentNumber(uri);
    OneSegmentAnchored(uri);
    OneSegmentLines(uri);
    OneSegmentTags(uri);
    OneSegmentText(uri);
    var before := Lines(OneSegment(uri).before);
    PlaylistLines(OneSegment(uri));
    UrisConcat(false, before, [uri] + Lines(OneSegment(uri).after));
    assert ([uri] + [ENDLIST])[1..] == [ENDLIST];
    OneUri(uri);
    assert [uri][1..] == [] && Numbered([], 1) == [];
    assert Numbered([uri], 0) == [Segment(0, uri)] + [];
    assert [] + [uri] == [uri];
  }

  lemma OneUri(uri: string)
    requires AnchorLine(uri)
    ensures Uris(true, [uri] + [ENDLIST]) == [uri]
  {
    assert ([uri] + [ENDLIST])[1..] == [ENDLIST] && [ENDLIST][1..] == [];
    assert IsTag(ENDLIST);
    assert Uris(false, [ENDLIST]) == [];
  }

  lemma HeaderLength(target: nat, lastSeq: int)
    ensures
      |Header(target, lastSeq)| ==
      10 + |TARGET| + |Decimal(target)| + |SEQUENCE| + |SignedDecimal(Int32(Int32(lastSeq) + 1))|
  {
    hide Decimal, SignedDecimal, Int32;
  }

  lemma OneDigit()
    ensures |Decimal(6)| == 1 && |SignedDecimal(Int32(Int32(-1) + 1))| == 1
    ensures |TARGET| < 30 && |SEQUENCE| < 30
  {
    Wraps();
    Digit(6);
    Digit(0);
    hide Int32, Decimal;
  }

  lemma Wraps()
    ensures Int32(-1) == -1 && Int32(0) == 0
  {
    assert -1 % 0x1_0000_0000 == 0xFFFF_FFFF;
  }

  lemma Digit(n: nat)
    requires n < 10
    ensures |Decimal(n)| == 1
  {
  }

  lemma HeaderIsShort()
    ensures |Header(6, -1)| < 100
  {
    hide Header, Decimal, SignedDecimal, Int32;
    HeaderLength(6, -1);
    OneDigit();
  }

  lemma OneSegmentText(uri: string)
    requires AnchorLine(uri) && NUL !in uri
    ensures NUL !in TextOf(OneSegment(uri)) && |TextOf(OneSegment(uri))| < MANIFEST_MAX
  {
    HeaderIsText(6, -1);
    HeaderIsShort();
    var h := Header(6, -1);
    hide Header;
    assert TextOf(OneSegment(uri)) == h + (EXTINF + "\n") + (uri + "\n" + (ENDLIST + "\n"));
  }
}
