/** The tail-only refresh: splice_tail, and the proof that it schedules what a full refresh would. */
module Tail {
  import opened Bytes
  import opened Text
  import opened Playlist
  import opened Schedule
  import opened Runs

  const MANIFEST_MAX := 262144

  /** A line as splice_tail compares it: one carriage return at its end does not count. */
  function DropCr(line: string): string {
    if line != "" && line[|line| - 1] == '\r' then line[..|line| - 1] else line
  }

  /** What follows the last line equal to `uri`. */
  function AfterLast(s: string, uri: string): Option<string>
    decreases |s|
  {
    if s == "" then None
    else
      match AfterLast(AfterLine(s), uri)
      case Some(rest) => Some(rest)
      case None => if DropCr(s[..LineEnd(s)]) == uri then Some(AfterLine(s)) else None
  }

  function Int32(n: int): int {
    var m := n % 0x1_0000_0000;
    if m < 0x8000_0000 then m else m - 0x1_0000_0000
  }

  /** The header of the minimal playlist; the sequence number passes through a 32-bit integer. */
  function Header(target: nat, lastSeq: int): string {
    "#EXTM3U\n" + (TARGET + Decimal(target) + "\n") + (SEQUENCE + SignedDecimal(Int32(Int32(lastSeq) + 1)) + "\n")
  }

  /** The minimal playlist made of a tail, or None when the tail does not hold the anchor line. */
  function Spliced(tail: string, uri: string, target: nat, lastSeq: int): Option<string> {
    if LineEnd(tail) == |tail| then None
    else
      match AfterLast(AfterLine(tail), uri)
      case None => None
      case Some(rest) =>
        if |Header(target, lastSeq)| + |rest| >= MANIFEST_MAX then None else Some(Header(target, lastSeq) + rest)
  }

  // ---- lines of concatenated texts

  predicate OneLine(s: string) { forall i :: 0 <= i < |s| ==> s[i] != '\n' }

  lemma {:induction false} LineEndOf(line: string, rest: string)
    requires OneLine(line) && (rest == "" || rest[0] == '\n')
    ensures LineEnd(line + rest) == |line|
    decreases |line|
  {
    if line == "" {
      assert line + rest == rest;
    } else {
      assert (line + rest)[1..] == line[1..] + rest;
      LineEndOf(line[1..], rest);
    }
  }

  /** The first line of a text. */
  lemma FirstLine(line: string, rest: string)
    requires OneLine(line)
    ensures LineEnd(line + "\n" + rest) == |line| && AfterLine(line + "\n" + rest) == rest
    ensures Lines(line + "\n" + rest) == [Trim(line)] + Lines(rest)
  {
    var s := line + "\n" + rest;
    assert s == line + ("\n" + rest) && s[|line|] == '\n';
    LineEndOf(line, "\n" + rest);
    assert s[..|line|] == line && s[|line| + 1..] == rest;
  }

  lemma LastLine(line: string)
    requires OneLine(line) && line != ""
    ensures LineEnd(line) == |line| && AfterLine(line) == "" && Lines(line) == [Trim(line)]
  {
    assert line + "" == line;
    LineEndOf(line, "");
    assert line[..|line|] == line && Lines("") == [];
  }

  /** Text that consists of complete lines. */
  predicate Complete(s: string) { s == "" || s[|s| - 1] == '\n' }

  /** Complete lines: the first, and the others. */
  lemma CompleteSplits(a: string)
    requires Complete(a) && a != ""
    ensures LineEnd(a) < |a| && Complete(AfterLine(a))
    ensures a == a[..LineEnd(a)] + "\n" + AfterLine(a) && OneLine(a[..LineEnd(a)])
  {
    assert a[|a| - 1] == '\n';
    LineEndIs(a);
    hide LineEnd, AfterLine, OneLine;
    CompleteRest(a, LineEnd(a));
    SplitAt(a, LineEnd(a));
  }

  lemma LineEndIs(s: string)
    ensures OneLine(s[..LineEnd(s)])
    ensures LineEnd(s) < |s| ==> AfterLine(s) == s[LineEnd(s) + 1..]
    ensures s != "" && s[|s| - 1] == '\n' ==> LineEnd(s) < |s|
  {
    hide LineEnd;
  }

  lemma CompleteRest(a: string, e: nat)
    requires Complete(a) && e < |a|
    ensures Complete(a[e + 1..])
  {
    assert e < |a| - 1 ==> a[e + 1..][|a| - e - 2] == a[|a| - 1];
  }

  lemma SplitAt(a: string, e: nat)
    requires e < |a| && a[e] == '\n'
    ensures a == a[..e] + "\n" + a[e + 1..]
  {
  }

  lemma FirstOfComplete(a: string, b: string)
    requires Complete(a) && a != ""
    ensures var line, rest := a[..LineEnd(a)], AfterLine(a);
            && Complete(rest) && |rest| < |a|
            && Lines(a + b) == [Trim(line)] + Lines(rest + b) && Lines(a) == [Trim(line)] + Lines(rest)
            && LineEnd(a + b) == |line| && AfterLine(a + b) == rest + b && (a + b)[..LineEnd(a + b)] == line
  {
    hide Lines, LineEnd, AfterLine, Trim;
    CompleteSplits(a);
    var line, rest := a[..LineEnd(a)], AfterLine(a);
    assert a + b == line + "\n" + (rest + b);
    FirstLine(line, rest + b);
    FirstLine(line, rest);
  }

  lemma {:induction false} LinesAppend(a: string, b: string)
    requires Complete(a)
    ensures Lines(a + b) == Lines(a) + Lines(b)
    decreases |a|
  {
    hide Lines, LineEnd, AfterLine, Trim;
    if a == "" {
      NoLines();
      assert a + b == b && [] + Lines(b) == Lines(b);
    } else {
      FirstOfComplete(a, b);
      LinesAppend(AfterLine(a), b);
    }
  }

  /** Complete lines in front do not matter once the anchor is found behind them. */
  lemma {:induction false} AfterLastSkips(a: string, b: string, uri: string)
    requires Complete(a) && AfterLast(b, uri).Some?
    ensures AfterLast(a + b, uri) == AfterLast(b, uri)
    decreases |a|
  {
    if a == "" {
      assert a + b == b;
    } else {
      hide Lines, LineEnd, AfterLine, Trim, DropCr;
      FirstOfComplete(a, b);
      AfterLastSkips(AfterLine(a), b, uri);
    }
  }

  lemma TrimCr(line: string, uri: string)
    requires DropCr(line) == uri && Trim(uri) == uri
    ensures Trim(line) == uri
  {
  }

  /** A URI that is not among the lines of a text is not found in it. */
  lemma {:induction false} NotFound(s: string, uri: string)
    requires uri !in Lines(s) && Trim(uri) == uri
    ensures AfterLast(s, uri) == None
    decreases |s|
  {
    if s != "" {
      assert Lines(s)[1..] == Lines(AfterLine(s));
      NotFound(AfterLine(s), uri);
      assert Lines(s)[0] == Trim(s[..LineEnd(s)]);
      if DropCr(s[..LineEnd(s)]) == uri {
        TrimCr(s[..LineEnd(s)], uri);
      }
    }
  }

  // ---- a playlist with an anchor

  /** A playlist around its anchor line: complete lines, the anchor and its line end, the rest. */
  datatype Anchored = Anchored(before: string, uri: string, eol: string, after: string)

  function TextOf(p: Anchored): string { p.before + (p.uri + p.eol + p.after) }

  predicate AnchorLine(uri: string) {
    uri != "" && OneLine(uri) && Trim(uri) == uri && !IsTag(uri) && |uri| < URL_MAX
  }

  /** A well-formed anchored playlist: the anchor line does not come again, and no numbering tags follow it. */
  predicate AnchoredOk(p: Anchored) {
    && Complete(p.before) && AnchorLine(p.uri)
    && (p.eol == "\n" || p.eol == "\r\n" || (p.after == "" && (p.eol == "" || p.eol == "\r")))
    && p.uri !in Lines(p.after)
    && forall l :: l in Lines(p.after) ==> Plain(l)
  }

  lemma TrimCarriage(uri: string)
    requires Trim(uri) == uri
    ensures Trim(uri + "\r") == uri && DropCr(uri + "\r") == uri
  {
    assert (uri + "\r")[..|uri|] == uri;
  }

  lemma TrimmedHasNoCr(uri: string)
    requires Trim(uri) == uri
    ensures DropCr(uri) == uri
  {
  }

  lemma AnchorFirst(p: Anchored)
    requires AnchoredOk(p)
    ensures var s := p.uri + p.eol + p.after;
            && Lines(s) == [p.uri] + Lines(p.after)
            && AfterLine(s) == p.after && s != "" && DropCr(s[..LineEnd(s)]) == p.uri
  {
    hide Lines, LineEnd, AfterLine, Trim, DropCr, Plain;
    var s, line := p.uri + p.eol + p.after, if p.eol == "\n" || p.eol == "" then p.uri else p.uri + "\r";
    TrimCarriage(p.uri);
    TrimmedHasNoCr(p.uri);
    if p.eol == "\n" || p.eol == "\r\n" {
      assert s == line + "\n" + p.after;
      FirstLine(line, p.after);
      assert s[..|line|] == line;
    } else {
      assert s == line && p.after == "";
      LastLine(line);
      NoLines();
      assert s[..|line|] == line;
    }
  }

  lemma NoLines()
    ensures Lines("") == []
  {
  }

  /** The tail of the playlist that starts with `cut`, complete lines in front of the anchor. */
  function TailOf(p: Anchored, cut: string): string { cut + (p.uri + p.eol + p.after) }

  /** splice_tail finds exactly what follows the anchor. */
  lemma SpliceFinds(p: Anchored, cut: string, target: nat, lastSeq: int)
    requires AnchoredOk(p) && Complete(cut) && cut != ""
    requires |Header(target, lastSeq)| + |p.after| < MANIFEST_MAX
    ensures Spliced(TailOf(p, cut), p.uri, target, lastSeq) == Some(Header(target, lastSeq) + p.after)
  {
    hide Lines, LineEnd, AfterLine, Trim, DropCr, Plain, Header;
    var s := p.uri + p.eol + p.after;
    AnchorFirst(p);
    NotFound(p.after, p.uri);
    assert AfterLast(s, p.uri) == Some(p.after);
    FirstOfComplete(cut, s);
    AfterLastSkips(AfterLine(cut), s, p.uri);
    CompleteSplits(cut);
  }

  // ---- numbering

  lemma TagLine(tag: string, number: string)
    requires OneLine(tag) && tag != "" && forall c :: c in number ==> IsDigit(c) || c == '-'
    requires number != "" && number[|number| - 1] != '\r' && number[|number| - 1] != ' '
    ensures OneLine(tag + number) && Trim(tag + number) == tag + number
  {
    forall i | 0 <= i < |tag + number| ensures (tag + number)[i] != '\n' {
      if i >= |tag| {
        assert number[i - |tag|] in number;
      }
    }
  }

  lemma HeaderParts(target: nat, lastSeq: int, rest: string)
    ensures
      var a, b := TARGET + Decimal(target), SEQUENCE + SignedDecimal(Int32(Int32(lastSeq) + 1));
      Header(target, lastSeq) + rest == "#EXTM3U" + "\n" + (a + "\n" + (b + "\n" + rest))
  {
    hide Decimal, SignedDecimal, Int32;
    assert "#EXTM3U\n" == "#EXTM3U" + "\n";
  }

  /** The header's lines. */
  lemma HeaderLines(target: nat, lastSeq: int, rest: string)
    ensures Lines(Header(target, lastSeq) + rest)
            == ["#EXTM3U", TARGET + Decimal(target), SEQUENCE + SignedDecimal(Int32(Int32(lastSeq) + 1))] + Lines(rest)
  {
    TagsAreOpen();
    hide *;
    var n := Int32(Int32(lastSeq) + 1);
    var a, b := TARGET + Decimal(target), SEQUENCE + SignedDecimal(n);
    NumberEnds(target);
    NumberEnds(n);
    NumberIsNoBreak(SignedDecimal(target));
    NumberIsNoBreak(SignedDecimal(n));
    TagLine(TARGET, Decimal(target));
    TagLine(SEQUENCE, SignedDecimal(n));
    FirstLine(b, rest);
    FirstLine(a, b + "\n" + rest);
    TrimMark();
    FirstLine("#EXTM3U", a + "\n" + (b + "\n" + rest));
    HeaderParts(target, lastSeq, rest);
  }

  lemma TagsAreOpen()
    ensures OneLine(TARGET) && TARGET != "" && OneLine(SEQUENCE) && SEQUENCE != "" && OneLine("#EXTM3U")
  {
  }

  lemma NumberIsNoBreak(s: string)
    requires s != "" && IsDigit(s[|s| - 1])
    ensures s[|s| - 1] != '\r' && s[|s| - 1] != ' '
  {
  }

  lemma TrimMark()
    ensures Trim("#EXTM3U") == "#EXTM3U"
  {
  }

  lemma NumberEnds(n: int)
    ensures var s := SignedDecimal(n);
            (n >= 0 ==> s == Decimal(n)) && s != "" && IsDigit(s[|s| - 1]) && forall c :: c in s ==> IsDigit(c) || c == '-'
  {
    var d := Decimal(if n < 0 then -n else n);
    assert d[|d| - 1] in d;
  }

  lemma HeaderIsText(target: nat, lastSeq: int)
    ensures NUL !in Header(target, lastSeq)
  {
    hide Decimal, SignedDecimal, Int32;
    var n := Int32(Int32(lastSeq) + 1);
    NumberEnds(target);
    NumberEnds(n);
    assert NUL !in SignedDecimal(target) && NUL !in SignedDecimal(n);
    NoNulInTags();
  }

  lemma NoNulInTags()
    ensures NUL !in "#EXTM3U\n" && NUL !in TARGET && NUL !in SEQUENCE && NUL !in "\n"
  {
  }

  /** What analyze finds in the spliced playlist. */
  lemma SplicedInfo(target: nat, lastSeq: int, rest: string)
    requires forall l :: l in Lines(rest) ==> Plain(l)
    ensures Analysis(Header(target, lastSeq) + rest).mediaSeq == Int32(Int32(lastSeq) + 1)
    ensures Analysis(Header(target, lastSeq) + rest).nseg == Infs(Lines(rest))
  {
    hide Lines, ScanTag, Plain, Header, Decimal, SignedDecimal, Signed, Int32;
    var n := Int32(Int32(lastSeq) + 1);
    Int32Exact(Int32(lastSeq) + 1);
    var a, b, c := "#EXTM3U", TARGET + Decimal(target), SEQUENCE + SignedDecimal(n);
    HeaderLines(target, lastSeq, rest);
    var s1, s2 := ScanLine(EMPTY_SCAN, a), ScanLine(ScanLine(EMPTY_SCAN, a), b);
    var s3 := ScanLine(s2, c);
    MarkScans(EMPTY_SCAN);
    TargetScans(s1, Decimal(target));
    SequenceScans(s2, n);
    assert [a, b, c] + Lines(rest) == [a] + ([b] + ([c] + Lines(rest)));
    ScanFirst(EMPTY_SCAN, a, [b] + ([c] + Lines(rest)));
    ScanFirst(s1, b, [c] + Lines(rest));
    ScanFirst(s2, c, Lines(rest));
    PlainKeepsNumbering(s3, Lines(rest));
    ScanCounts(s3, Lines(rest));
  }

  lemma ScanFirst(a: Scan, line: string, rest: seq<string>)
    ensures ScanLines(a, [line] + rest) == ScanLines(ScanLine(a, line), rest)
  {
    assert ([line] + rest)[1..] == rest;
  }

  lemma MarkScans(a: Scan)
    ensures ScanLine(a, "#EXTM3U") == a
  {
    var line := "#EXTM3U";
    assert line[4] == 'M';
    NotBoth(line, line, EXTINF, 4);
    assert line[..|line|] == line;
  }

  lemma TargetScans(a: Scan, number: string)
    ensures var b := ScanLine(a, TARGET + number); b.info.nseg == a.info.nseg && b.info.mediaSeq == a.info.mediaSeq
  {
    assert (TARGET + number)[..|TARGET|] == TARGET && (TARGET + number)[0] == '#';
  }

  lemma SequenceScans(a: Scan, n: int)
    requires -0x8000_0000 <= n < 0x8000_0000
    ensures var b := ScanLine(a, SEQUENCE + SignedDecimal(n)); b.info.nseg == a.info.nseg && b.info.mediaSeq == n
  {
    hide SignedDecimal, Signed;
    var line := SEQUENCE + SignedDecimal(n);
    assert line[..|SEQUENCE|] == SEQUENCE && line[|SEQUENCE|..] == SignedDecimal(n) && line[0] == '#';
    NotBoth(line, SEQUENCE, TARGET, 7);
    SignedReadBack(n);
  }

  /** The tail refresh numbers the segments behind the anchor as they are exactly if their number fits 31 bits. */
  lemma SpliceNumbersExact(target: nat, lastSeq: int, rest: string)
    requires forall l :: l in Lines(rest) ==> Plain(l)
    ensures Analysis(Header(target, lastSeq) + rest).mediaSeq == lastSeq + 1
            <==> -0x8000_0000 <= lastSeq + 1 < 0x8000_0000
  {
    hide Int32, Analysis, Header;
    SplicedInfo(target, lastSeq, rest);
    Int32Next(lastSeq);
  }

  lemma Int32Next(n: int)
    ensures Int32(Int32(n) + 1) == n + 1 <==> -0x8000_0000 <= n + 1 < 0x8000_0000
  {
    Int32Exact(n);
    Int32Exact(Int32(n) + 1);
    Int32Exact(n + 1);
    var k := n / 0x1_0000_0000;
    if -0x8000_0000 <= n + 1 < 0x8000_0000 && n + 1 == -0x8000_0000 {
      assert n % 0x1_0000_0000 == 0x7FFF_FFFF;
    }
  }

  lemma Int32Exact(n: int)
    ensures -0x8000_0000 <= Int32(n) < 0x8000_0000
    ensures Int32(n) == n <==> -0x8000_0000 <= n < 0x8000_0000
  {
  }

  // ---- the walks

  /** The state of the tags behind some lines. */
  function PendingAfter(pending: bool, lines: seq<string>): bool
    decreases |lines|
  {
    if lines == [] then pending
    else if IsTag(lines[0]) then PendingAfter(pending || StartsWith(lines[0], EXTINF), lines[1..])
    else PendingAfter(if lines[0] == "" || !pending then pending else false, lines[1..])
  }

  /** The map in force behind a line. */
  function MapBehind(resolve: Resolver, mapUrl: string, line: string): string {
    if IsTag(line) && StartsWith(line, MAP) && AttrUri(line).Some? then resolve(AttrUri(line).value) else mapUrl
  }

  /** The map in force behind some lines. */
  function MapAfter(resolve: Resolver, mapUrl: string, lines: seq<string>): string
    decreases |lines|
  {
    if lines == [] then mapUrl else MapAfter(resolve, MapBehind(resolve, mapUrl, lines[0]), lines[1..])
  }

  /** The map in force for the first segment among some lines, or behind them if there is none. */
  function MapAtFirst(resolve: Resolver, mapUrl: string, pending: bool, lines: seq<string>): string
    decreases |lines|
  {
    if lines == [] then mapUrl
    else if IsTag(lines[0]) then
      MapAtFirst(resolve, MapBehind(resolve, mapUrl, lines[0]), pending || StartsWith(lines[0], EXTINF), lines[1..])
    else if lines[0] == "" || !pending then MapAtFirst(resolve, mapUrl, pending, lines[1..])
    else mapUrl
  }

  lemma {:induction false} UrisConcat(pending: bool, x: seq<string>, y: seq<string>)
    ensures Uris(pending, x + y) == Uris(pending, x) + Uris(PendingAfter(pending, x), y)
    decreases |x|
  {
    hide IsTag;
    if x == [] {
      assert x + y == y && [] + Uris(pending, y) == Uris(pending, y);
    } else {
      assert (x + y)[1..] == x[1..] + y;
      var p := if IsTag(x[0]) then pending || StartsWith(x[0], EXTINF) else if x[0] == "" || !pending then pending else false;
      UrisConcat(p, x[1..], y);
    }
  }

  /** Lines that list only segments already played leave no trace but the map in force. */
  lemma {:induction false} PlayedLines(resolve: Resolver, info: Info, first: nat, w: Walk, x: seq<string>, y: seq<string>)
    returns (disc: bool)
    requires w.mem.haveLast && info.mediaSeq + w.idx + |Uris(w.pending, x)| <= w.mem.lastSeq + 1
    ensures WalkLines(resolve, info, first, w, x + y) ==
              WalkLines(resolve, info, first,
                w.(idx := w.idx + |Uris(w.pending, x)|, pending := PendingAfter(w.pending, x), disc := disc,
                   mem := w.mem.(mapUrl := MapAfter(resolve, w.mem.mapUrl, x))), y)
    decreases |x|
  {
    hide FetchSegment, IsTag, AttrUri;
    if x == [] {
      assert x + y == y;
      disc := w.disc;
    } else {
      assert (x + y)[1..] == x[1..] + y;
      var w1 := WalkLine(resolve, info, first, w, x[0]).0;
      if IsTag(x[0]) {
        TagKeeps(resolve, w, x[0]);
      }
      disc := PlayedLines(resolve, info, first, w1, x[1..], y);
    }
  }

  /** What a walk did, its counter left out. */
  datatype Trace = Trace(mem: Memory, script: seq<Attempt>, reqs: seq<Request>, done: seq<Segment>, verdict: Verdict)

  function TraceOf(r: (Walk, Verdict)): Trace { Trace(r.0.mem, r.0.script, r.0.reqs, r.0.done, r.1) }

  /** Once a segment has been played, only segment numbers matter, not how the playlist counts them. */
  lemma {:induction false} Renumbered(resolve: Resolver, i: Info, j: Info, f: nat, g: nat, w: Walk, v: Walk, lines: seq<string>)
    requires w.mem.haveLast && v == w.(idx := v.idx) && i.mediaSeq + w.idx == j.mediaSeq + v.idx
    ensures TraceOf(WalkLines(resolve, i, f, w, lines)) == TraceOf(WalkLines(resolve, j, g, v, lines))
    decreases |lines|
  {
    hide IsTag, WalkTag, FetchSegment;
    if lines != [] {
      var (w1, x) := WalkLine(resolve, i, f, w, lines[0]);
      var (v1, y) := WalkLine(resolve, j, g, v, lines[0]);
      if IsTag(lines[0]) {
        TagKeeps(resolve, w, lines[0]);
        TagKeeps(resolve, v, lines[0]);
        TagIgnoresIdx(resolve, w, v, lines[0]);
      } else if lines[0] != "" && w.pending {
        var seqNo := i.mediaSeq + w.idx;
        var w2 := w.(idx := w.idx + 1, pending := false, disc := false);
        var v2 := v.(idx := v.idx + 1, pending := false, disc := false);
        FetchKeeps(w2, w.disc, seqNo, lines[0]);
        FetchKeeps(v2, v.disc, seqNo, lines[0]);
        FetchIgnoresIdx(w2, v2, w.disc, seqNo, lines[0]);
      }
      if x == Going {
        Renumbered(resolve, i, j, f, g, w1, v1, lines[1..]);
      }
    }
  }

  lemma FetchIgnoresIdx(w: Walk, v: Walk, disc: bool, seqNo: int, line: string)
    requires v == w.(idx := v.idx)
    ensures var (w1, x) := FetchSegment(w, disc, seqNo, line);
            var (v1, y) := FetchSegment(v, disc, seqNo, line);
            x == y && v1 == w1.(idx := v1.idx)
  {
    hide FetchInit, FetchMedia;
    if w.script != [] {
      var a, w0, v0 := w.script[0], w.(script := w.script[1..]), v.(script := v.script[1..]);
      InitIgnoresIdx(w0, v0, disc, a);
      MediaIgnoresIdx(FetchInit(w0, disc, a).0, FetchInit(v0, disc, a).0, seqNo, line, a);
    }
  }

  lemma InitIgnoresIdx(w: Walk, v: Walk, disc: bool, a: Attempt)
    requires v == w.(idx := v.idx)
    ensures FetchInit(v, disc, a).1 == FetchInit(w, disc, a).1
    ensures FetchInit(v, disc, a).0 == FetchInit(w, disc, a).0.(idx := v.idx)
  {
  }

  lemma MediaIgnoresIdx(w: Walk, v: Walk, seqNo: int, line: string, a: Attempt)
    requires v == w.(idx := v.idx)
    ensures FetchMedia(v, seqNo, line, a).1 == FetchMedia(w, seqNo, line, a).1
    ensures FetchMedia(v, seqNo, line, a).0 == FetchMedia(w, seqNo, line, a).0.(idx := v.idx)
  {
  }

  lemma TagIgnoresIdx(resolve: Resolver, w: Walk, v: Walk, line: string)
    requires v == w.(idx := v.idx)
    ensures WalkTag(resolve, v, line) == WalkTag(resolve, w, line).(idx := v.idx)
  {
  }

  /** Two walks that agree on the map of their next segment leave the same trace. */
  lemma {:induction false} MapsMeet(resolve: Resolver, i: Info, j: Info, f: nat, g: nat, w: Walk, v: Walk, lines: seq<string>)
    requires w.mem.haveLast && v == w.(idx := v.idx, mem := w.mem.(mapUrl := v.mem.mapUrl))
    requires i.mediaSeq + w.idx == j.mediaSeq + v.idx
    requires MapAtFirst(resolve, w.mem.mapUrl, w.pending, lines) == MapAtFirst(resolve, v.mem.mapUrl, w.pending, lines)
    ensures TraceOf(WalkLines(resolve, i, f, w, lines)) == TraceOf(WalkLines(resolve, j, g, v, lines))
    decreases |lines|
  {
    if lines != [] && (IsTag(lines[0]) || lines[0] == "" || !w.pending) {
      var w1, v1 := WalkLine(resolve, i, f, w, lines[0]).0, WalkLine(resolve, j, g, v, lines[0]).0;
      TagMoves(resolve, w, v, lines[0]);
      hide IsTag, WalkTag, FetchSegment, MapBehind;
      MapsMeet(resolve, i, j, f, g, w1, v1, lines[1..]);
    } else {
      hide WalkLines;
      Renumbered(resolve, i, j, f, g, w, v, lines);
    }
  }

  lemma TagMoves(resolve: Resolver, w: Walk, v: Walk, line: string)
    requires v == w.(idx := v.idx, mem := w.mem.(mapUrl := v.mem.mapUrl))
    ensures
      IsTag(line) ==>
        var t, u := WalkTag(resolve, w, line), WalkTag(resolve, v, line);
        && u == t.(idx := u.idx, mem := t.mem.(mapUrl := u.mem.mapUrl))
        && t.mem == w.mem.(mapUrl := MapBehind(resolve, w.mem.mapUrl, line))
        && u.mem.mapUrl == MapBehind(resolve, v.mem.mapUrl, line)
        && t.pending == (w.pending || StartsWith(line, EXTINF)) && t.idx == w.idx && u.idx == v.idx
  {
    NotBoth(line, EXTINF, MAP, 4);
    NotBoth(line, EXTINF, DISCONTINUITY, 4);
    hide AttrUri;
  }

  // ---- tail refresh against full refresh

  /** The anchor is the segment last played, under the number it was played as. */
  ghost predicate AnchorsMemory(p: Anchored, m: Memory) {
    && AnchoredOk(p) && m.haveLast && m.lastUri == p.uri
    && PendingAfter(false, Lines(p.before))
    && m.lastSeq == Analysis(TextOf(p)).mediaSeq + |Uris(false, Lines(p.before))|
  }

  lemma PlaylistLines(p: Anchored)
    requires AnchoredOk(p)
    ensures Lines(TextOf(p)) == Lines(p.before) + ([p.uri] + Lines(p.after))
  {
    LinesAppend(p.before, p.uri + p.eol + p.after);
    AnchorFirst(p);
  }

  /** The full playlist does not look restarted, and neither does the spliced one. */
  lemma NotRestarted(p: Anchored, m: Memory)
    requires AnchorsMemory(p, m)
    ensures AfterRestart(m, Analysis(TextOf(p))) == m
  {
    hide Lines, AnchoredOk, AnchorLine;
    PlaylistLines(p);
    var x, y := Lines(p.before), [p.uri] + Lines(p.after);
    UrisConcat(false, x, y);
    assert |Uris(PendingAfter(false, x), y)| >= 1 by {
      AnchorCounts(p);
    }
    UrisAreCounted(false, Lines(TextOf(p)));
    ScanCounts(EMPTY_SCAN, Lines(TextOf(p)));
  }

  lemma AnchorCounts(p: Anchored)
    requires AnchoredOk(p)
    ensures Uris(true, [p.uri] + Lines(p.after)) == [p.uri] + Uris(false, Lines(p.after))
  {
    assert ([p.uri] + Lines(p.after))[1..] == Lines(p.after);
  }

  /** What a full refresh does: only the lines behind the anchor count. */
  lemma FullWalk(resolve: Resolver, m: Memory, info: Info, first: nat, p: Anchored, script: seq<Attempt>) returns (w: Walk)
    requires AnchorsMemory(p, m) && info == Analysis(TextOf(p))
    ensures WalkLines(resolve, info, first, StartWalk(m, script), Lines(TextOf(p))) == WalkLines(resolve, info, first, w, Lines(p.after))
    ensures w == Walk(w.idx, false, false, m.(mapUrl := MapAfter(resolve, m.mapUrl, Lines(p.before))), script, [], [])
    ensures info.mediaSeq + w.idx == m.lastSeq + 1
  {
    hide Lines, Analysis, FetchSegment, Clip, Plain;
    var x, y := Lines(p.before), Lines(p.after);
    PlaylistLines(p);
    var disc := PlayedLines(resolve, info, first, StartWalk(m, script), x, [p.uri] + y);
    var w0 := Walk(|Uris(false, x)|, true, disc, m.(mapUrl := MapAfter(resolve, m.mapUrl, x)), script, [], []);
    assert ([p.uri] + y)[1..] == y;
    w := w0.(idx := w0.idx + 1, pending := false, disc := false);
    assert WalkLine(resolve, info, first, w0, p.uri) == (w, Going);
  }

  /** What a refresh from a tail does: the header's lines change nothing. */
  lemma SplicedWalk(resolve: Resolver, m: Memory, info: Info, first: nat, p: Anchored, target: nat, script: seq<Attempt>)
    ensures WalkLines(resolve, info, first, StartWalk(m, script), Lines(Header(target, m.lastSeq) + p.after))
            == WalkLines(resolve, info, first, StartWalk(m, script), Lines(p.after))
  {
    hide Lines, Header, FetchSegment, Decimal, SignedDecimal, Int32, WalkTag, AttrUri;
    var n := Int32(Int32(m.lastSeq) + 1);
    var a, b, c := "#EXTM3U", TARGET + Decimal(target), SEQUENCE + SignedDecimal(n);
    HeaderLines(target, m.lastSeq, p.after);
    var w, rest := StartWalk(m, script), Lines(p.after);
    QuietTag(resolve, w, a);
    QuietTag(resolve, w, b);
    QuietTag(resolve, w, c);
    assert [a, b, c] + rest == [a] + ([b] + ([c] + rest));
    WalkFirst(resolve, info, first, w, a, [b] + ([c] + rest));
    WalkFirst(resolve, info, first, w, b, [c] + rest);
    WalkFirst(resolve, info, first, w, c, rest);
  }

  lemma WalkFirst(resolve: Resolver, info: Info, first: nat, w: Walk, line: string, rest: seq<string>)
    requires WalkLine(resolve, info, first, w, line) == (w, Going)
    ensures WalkLines(resolve, info, first, w, [line] + rest) == WalkLines(resolve, info, first, w, rest)
  {
    assert ([line] + rest)[1..] == rest;
  }

  /** Header lines are none of the tags a walk looks at. */
  lemma QuietTag(resolve: Resolver, w: Walk, line: string)
    requires line == "#EXTM3U" || StartsWith(line, TARGET) || StartsWith(line, SEQUENCE)
    ensures IsTag(line) && WalkTag(resolve, w, line) == w
  {
    hide AttrUri;
    if line == "#EXTM3U" {
      assert line[..|line|] == line;
      NotBoth(line, line, MAP, 4);
      NotBoth(line, line, DISCONTINUITY, 4);
      NotBoth(line, line, EXTINF, 4);
    } else {
      var tag := if StartsWith(line, TARGET) then TARGET else SEQUENCE;
      assert line[0] == line[..|tag|][0];
      NotBoth(line, tag, MAP, if tag == TARGET then 7 else 8);
      NotBoth(line, tag, DISCONTINUITY, 7);
      NotBoth(line, tag, EXTINF, 4);
    }
  }

  /** The part of a playlist from a point before the anchor's line break. */
  lemma TailIsSuffix(p: Anchored, i: nat)
    requires Complete(p.before) && i < |p.before|
    ensures Complete(p.before[i..]) && TextOf(p)[i..] == TailOf(p, p.before[i..])
  {
  }

  /** The spliced playlist does not look restarted. */
  lemma SplicedNotRestarted(m: Memory, target: nat, rest: string)
    requires -0x8000_0000 <= m.lastSeq < 0x7FFF_FFFF && forall l :: l in Lines(rest) ==> Plain(l)
    ensures var info := Analysis(Header(target, m.lastSeq) + rest);
            info.mediaSeq == m.lastSeq + 1 && AfterRestart(m, info) == m
  {
    hide Analysis, Header, Int32;
    SpliceNumbersExact(target, m.lastSeq, rest);
  }

  /** Whether reading the lines in front of the anchor changes the map of the first segment behind it. */
  predicate MapsAgree(resolve: Resolver, mapUrl: string, p: Anchored) {
    MapAtFirst(resolve, MapAfter(resolve, mapUrl, Lines(p.before)), false, Lines(p.after)) ==
    MapAtFirst(resolve, mapUrl, false, Lines(p.after))
  }

  /**
   * A tail refresh is a full refresh. Whatever suffix of the playlist arrives with the anchor line behind
   * a line break, and whatever the downloads do, walking the spliced playlist makes the same requests,
   * completes the same segments and leaves the same memory as walking the whole playlist, provided both
   * have the same map in force at the first segment behind the anchor.
   */
  lemma TailRefinesFull(resolve: Resolver, m: Memory, big: bool, target: nat, p: Anchored, i: nat, script: seq<Attempt>)
    requires AnchorsMemory(p, m) && -0x8000_0000 <= m.lastSeq < 0x7FFF_FFFF
    requires i < |p.before| && |Header(target, m.lastSeq)| + |p.after| < MANIFEST_MAX
    requires MapsAgree(resolve, m.mapUrl, p)
    ensures var s := Spliced(TextOf(p)[i..], m.lastUri, target, m.lastSeq);
            && s.Some?
            && TraceOf(Process(resolve, m, big, Analysis(s.value), s.value, script))
               == TraceOf(Process(resolve, m, big, Analysis(TextOf(p)), TextOf(p), script))
  {
    hide Header, Analysis, Lines, WalkLines, AfterRestart, JoinIndex, Spliced, MapAfter, AnchorLine, Plain, TextOf;
    TailIsSuffix(p, i);
    SpliceFinds(p, p.before[i..], target, m.lastSeq);
    var text, full := Header(target, m.lastSeq) + p.after, TextOf(p);
    var j, k := Analysis(text), Analysis(full);
    NotRestarted(p, m);
    SplicedNotRestarted(m, target, p.after);
    var f, g := JoinIndex(m, k, big), JoinIndex(m, j, big);
    var w := FullWalk(resolve, m, k, f, p, script);
    SplicedWalk(resolve, m, j, g, p, target, script);
    hide MapAtFirst;
    MapsMeet(resolve, k, j, f, g, w, StartWalk(m, script), Lines(p.after));
  }

  /**
   * Without any assumption about maps or downloads, both refreshes complete a prefix of the same plan, the
   * segments behind the anchor, and the whole plan if they get through; then they remember the same last one.
   */
  lemma TailPlansTheSame(resolve: Resolver, m: Memory, big: bool, target: nat, p: Anchored, i: nat,
                         script: seq<Attempt>, script': seq<Attempt>)
    requires AnchorsMemory(p, m) && -0x8000_0000 <= m.lastSeq < 0x7FFF_FFFF
    requires i < |p.before| && |Header(target, m.lastSeq)| + |p.after| < MANIFEST_MAX
    ensures var s := Spliced(TextOf(p)[i..], m.lastUri, target, m.lastSeq);
            && s.Some?
            && var (w, x) := Process(resolve, m, big, Analysis(s.value), s.value, script);
            var (v, y) := Process(resolve, m, big, Analysis(TextOf(p)), TextOf(p), script');
            var plan := Numbered(Uris(false, Lines(p.after)), m.lastSeq + 1);
            && w.done <= plan && v.done <= plan
            && (x == Going ==> w.done == plan) && (y == Going ==> v.done == plan)
            && (|w.done| == |v.done| ==> w.mem.lastSeq == v.mem.lastSeq && w.mem.lastUri == v.mem.lastUri)
  {
    hide Header, Analysis, Lines, WalkLines, AfterRestart, JoinIndex, Spliced, MapAfter, AnchorLine, Plain, TextOf;
    hide Achieved, Plan, Numbered, Uris, PendingAfter, Clip;
    TailIsSuffix(p, i);
    SpliceFinds(p, p.before[i..], target, m.lastSeq);
    var text, full := Header(target, m.lastSeq) + p.after, TextOf(p);
    var j, k := Analysis(text), Analysis(full);
    NotRestarted(p, m);
    SplicedNotRestarted(m, target, p.after);
    var f, g := JoinIndex(m, k, big), JoinIndex(m, j, big);
    var v := FullWalk(resolve, m, k, f, p, script');
    SplicedWalk(resolve, m, j, g, p, target, script);
    WalkAchieves(resolve, k, f, v, Lines(p.after));
    WalkAchieves(resolve, j, g, StartWalk(m, script), Lines(p.after));
    NextPlan(m, j, 0, g, Uris(false, Lines(p.after)));
    NextPlan(v.mem, k, v.idx, f, Uris(false, Lines(p.after)));
    WholePlan(v, Plan(v.mem, k, v.idx, f, Uris(false, Lines(p.after))), WalkLines(resolve, k, f, v, Lines(p.after)));
    WholePlan(StartWalk(m, script), Plan(m, j, 0, g, Uris(false, Lines(p.after))),
              WalkLines(resolve, j, g, StartWalk(m, script), Lines(p.after)));
  }

  /** Everything behind the segment last played is planned. */
  lemma NextPlan(m: Memory, info: Info, idx: nat, first: nat, uris: seq<string>)
    requires m.haveLast && info.mediaSeq + idx == m.lastSeq + 1
    ensures Plan(m, info, idx, first, uris) == Numbered(uris, m.lastSeq + 1)
  {
    assert uris[0..] == uris;
  }

  lemma WholePlan(w: Walk, plan: seq<Segment>, r: (Walk, Verdict))
    requires Achieved(w, plan, r.0, r.1) && w.done == []
    ensures r.0.done <= plan && (r.1 == Going ==> r.0.done == plan)
    ensures
      var n := |r.0.done|;
      && r.0.mem.lastSeq == (if n == 0 then w.mem.lastSeq else plan[n - 1].number)
      && r.0.mem.lastUri == (if n == 0 then w.mem.lastUri else Clip(plan[n - 1].uri))
  {
    assert [] + plan[..|r.0.done|] == plan[..|r.0.done|];
  }
}
