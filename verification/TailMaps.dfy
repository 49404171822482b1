/**
 * Where the memory of a tail refresh comes from: after a walk whose last completed segment is the anchor, the
 * remembered map is one with which the tail refresh is a full refresh.
 */
module TailMaps {
  import opened Bytes
  import opened Text
  import opened Playlist
  import opened Schedule
  import opened Runs
  import opened Tail

  lemma {:induction false} WalkSplit(resolve: Resolver, info: Info, first: nat, w: Walk, x: seq<string>, y: seq<string>)
    ensures
      var (t, v) := WalkLines(resolve, info, first, w, x);
      WalkLines(resolve, info, first, w, x + y) == if v.Going? then WalkLines(resolve, info, first, t, y) else (t, v)
    decreases |x|
  {
    hide WalkLine;
    if x == [] {
      assert x + y == y;
    } else {
      assert (x + y)[0] == x[0] && (x + y)[1..] == x[1..] + y;
      var (w1, v) := WalkLine(resolve, info, first, w, x[0]);
      if v.Going? {
        WalkSplit(resolve, info, first, w1, x[1..], y);
      }
    }
  }

  /** Downloads do not touch the map in force. */
  lemma FetchLeavesMap(w: Walk, disc: bool, seqNo: int, line: string)
    ensures FetchSegment(w, disc, seqNo, line).0.mem.mapUrl == w.mem.mapUrl
  {
    if w.script != [] {
      InitKeeps(w.(script := w.script[1..]), disc, w.script[0]);
    }
    hide FetchInit;
  }

  predicate IsSegment(w: Walk, line: string) { !IsTag(line) && line != "" && w.pending }

  /** A tag or an empty line. */
  lemma QuietMoves(resolve: Resolver, info: Info, first: nat, w: Walk, line: string)
    requires !IsSegment(w, line)
    ensures
      var (t, v) := WalkLine(resolve, info, first, w, line);
      && v == Going && t.done == w.done && t.idx == w.idx
      && t.mem == w.mem.(mapUrl := MapBehind(resolve, w.mem.mapUrl, line))
      && t.pending == (w.pending || (IsTag(line) && StartsWith(line, EXTINF)))
  {
    if IsTag(line) {
      TagKeeps(resolve, w, line);
      TagMoves(resolve, w, w, line);
    }
    hide WalkTag, FetchSegment, StartsWith, AttrUri, Wanted;
  }

  /** The line of a segment. */
  lemma SegmentMoves(resolve: Resolver, info: Info, first: nat, w: Walk, line: string)
    requires IsSegment(w, line)
    ensures
      var (t, v) := WalkLine(resolve, info, first, w, line);
      && t.mem.mapUrl == w.mem.mapUrl && t.idx == w.idx + 1 && !t.pending
      && (!Wanted(w.mem, info.mediaSeq + w.idx, w.idx, first) ==> v == Going && t.done == w.done && t.mem == w.mem)
      && (Wanted(w.mem, info.mediaSeq + w.idx, w.idx, first) ==>
            if v.Going? then
              && t.done == w.done + [Segment(info.mediaSeq + w.idx, line)]
              && t.mem.haveLast && t.mem.lastSeq == info.mediaSeq + w.idx
            else t.done == w.done && t.mem.haveLast == w.mem.haveLast && t.mem.lastSeq == w.mem.lastSeq)
  {
    hide FetchSegment, Wanted, MapBehind, Clip;
    var skipped, seqNo := w.(idx := w.idx + 1, pending := false, disc := false), info.mediaSeq + w.idx;
    FetchLeavesMap(skipped, w.disc, seqNo, line);
    FetchKeeps(skipped, w.disc, seqNo, line);
    SegmentLine(resolve, info, first, w, line);
    hide WalkLine;
  }

  lemma SegmentLine(resolve: Resolver, info: Info, first: nat, w: Walk, line: string)
    requires IsSegment(w, line)
    ensures
      var skipped, seqNo := w.(idx := w.idx + 1, pending := false, disc := false), info.mediaSeq + w.idx;
      WalkLine(resolve, info, first, w, line) ==
      if Wanted(w.mem, seqNo, w.idx, first) then FetchSegment(skipped, w.disc, seqNo, line) else (skipped, Going)
  {
    hide FetchSegment, Wanted;
  }

  /** A line of either kind. */
  lemma LineMoves(resolve: Resolver, info: Info, first: nat, w: Walk, line: string)
    ensures
      var (t, v) := WalkLine(resolve, info, first, w, line);
      && t.mem.mapUrl == MapBehind(resolve, w.mem.mapUrl, line)
      && (IsSegment(w, line) ==> t.mem.mapUrl == w.mem.mapUrl)
      && t.idx == (if IsSegment(w, line) then w.idx + 1 else w.idx)
      && t.pending == (if IsSegment(w, line) then false else w.pending || (IsTag(line) && StartsWith(line, EXTINF)))
      && (!v.Going? ==> IsSegment(w, line)) && w.done <= t.done
      && (v.Going? && t.done == w.done ==> t.mem == w.mem.(mapUrl := t.mem.mapUrl))
      && (v.Going? && t.done != w.done ==>
            IsSegment(w, line) && t.mem.haveLast && t.mem.lastSeq == info.mediaSeq + w.idx)
      && (v.Going? && t.done == w.done && IsSegment(w, line) ==> !Wanted(w.mem, info.mediaSeq + w.idx, w.idx, first))
      && (!v.Going? ==> t.done == w.done && t.mem.haveLast == w.mem.haveLast && t.mem.lastSeq == w.mem.lastSeq
                        && Wanted(w.mem, info.mediaSeq + w.idx, w.idx, first))
  {
    if IsSegment(w, line) {
      SegmentMoves(resolve, info, first, w, line);
      assert MapBehind(resolve, w.mem.mapUrl, line) == w.mem.mapUrl;
    } else {
      QuietMoves(resolve, info, first, w, line);
    }
    hide IsTag, WalkLine, StartsWith, MapBehind, Wanted, IsSegment;
  }

  /** Where a walk stands when it gets through some lines. */
  lemma {:induction false} WalkArrives(resolve: Resolver, info: Info, first: nat, w: Walk, lines: seq<string>)
    ensures
      var (t, v) := WalkLines(resolve, info, first, w, lines);
      v.Going? ==>
        && t.mem.mapUrl == MapAfter(resolve, w.mem.mapUrl, lines)
        && t.idx == w.idx + |Uris(w.pending, lines)| && t.pending == PendingAfter(w.pending, lines)
    decreases |lines|
  {
    if lines != [] {
      LineMoves(resolve, info, first, w, lines[0]);
      hide IsTag, WalkLine, StartsWith, MapBehind, Wanted;
      var (w1, v) := WalkLine(resolve, info, first, w, lines[0]);
      if v.Going? {
        WalkArrives(resolve, info, first, w1, lines[1..]);
      }
    }
  }

  lemma {:induction false} DoneGrows(resolve: Resolver, info: Info, first: nat, w: Walk, lines: seq<string>)
    ensures w.done <= WalkLines(resolve, info, first, w, lines).0.done
    decreases |lines|
  {
    if lines != [] {
      LineMoves(resolve, info, first, w, lines[0]);
      hide IsTag, WalkLine, StartsWith, MapBehind, Wanted;
      var (w1, v) := WalkLine(resolve, info, first, w, lines[0]);
      if v.Going? {
        DoneGrows(resolve, info, first, w1, lines[1..]);
      }
    }
  }

  /** A walk that completes nothing more stops at the next segment, with the map in force there. */
  lemma {:induction false} StopsAhead(resolve: Resolver, info: Info, first: nat, w: Walk, lines: seq<string>)
    requires w.mem.haveLast && info.mediaSeq + w.idx > w.mem.lastSeq
    requires WalkLines(resolve, info, first, w, lines).0.done == w.done
    ensures
      WalkLines(resolve, info, first, w, lines).0.mem.mapUrl == MapAtFirst(resolve, w.mem.mapUrl, w.pending, lines)
    decreases |lines|
  {
    if lines != [] {
      var line := lines[0];
      LineMoves(resolve, info, first, w, line);
      assert Wanted(w.mem, info.mediaSeq + w.idx, w.idx, first);
      assert !IsTag(line) ==> MapBehind(resolve, w.mem.mapUrl, line) == w.mem.mapUrl;
      hide IsTag, WalkLine, StartsWith, MapBehind, Wanted;
      var (w1, v) := WalkLine(resolve, info, first, w, line);
      if v.Going? {
        DoneGrows(resolve, info, first, w1, lines[1..]);
        StopsAhead(resolve, info, first, w1, lines[1..]);
      }
    }
  }

  lemma PlanAt(m: Memory, info: Info, idx: nat, first: nat, uris: seq<string>)
    ensures
      var n, plan := Passed(m, info.mediaSeq + idx, idx, first), Plan(m, info, idx, first, uris);
      && |plan| == (if n >= |uris| then 0 else |uris| - n)
      && forall i :: 0 <= i < |plan| ==> plan[i].number == info.mediaSeq + idx + n + i
  {
    var n := Passed(m, info.mediaSeq + idx, idx, first);
    if n < |uris| {
      NumberedLength(uris[n..], info.mediaSeq + idx + n);
      forall i | 0 <= i < |uris| - n
        ensures Plan(m, info, idx, first, uris)[i].number == info.mediaSeq + idx + n + i
      {
        NumberedAt(uris[n..], info.mediaSeq + idx + n, i);
      }
    }
  }

  /** The number a walk remembers: the one it started with, or that of a segment among its lines. */
  lemma LastAmong(resolve: Resolver, info: Info, first: nat, w: Walk, lines: seq<string>)
    ensures
      var t := WalkLines(resolve, info, first, w, lines).0;
      if t.done == w.done then t.mem.haveLast == w.mem.haveLast && t.mem.lastSeq == w.mem.lastSeq
      else t.mem.haveLast && info.mediaSeq + w.idx <= t.mem.lastSeq < info.mediaSeq + w.idx + |Uris(w.pending, lines)|
  {
    hide WalkLines, Plan, Uris, Passed;
    WalkAchieves(resolve, info, first, w, lines);
    PlanAt(w.mem, info, w.idx, first, Uris(w.pending, lines));
  }

  /** A walk that gets as far as the anchor line, to be played there or passed over. */
  lemma AtAnchor(resolve: Resolver, info: Info, first: nat, w: Walk, x: seq<string>, uri: string) returns (u: Walk)
    requires w.idx == 0 && !w.pending && PendingAfter(false, x) && uri != "" && !IsTag(uri)
    requires
      var t := WalkLines(resolve, info, first, w, x + [uri]).0;
      t.mem.haveLast && t.mem.lastSeq == info.mediaSeq + |Uris(false, x)|
    ensures WalkLines(resolve, info, first, w, x + [uri]) == (u, Going)
    ensures u.idx == |Uris(false, x)| + 1 && !u.pending && u.mem.mapUrl == MapAfter(resolve, w.mem.mapUrl, x)
  {
    hide WalkLines, Uris, PendingAfter, MapAfter, StartsWith, MapBehind;
    WalkSplit(resolve, info, first, w, x, [uri]);
    WalkArrives(resolve, info, first, w, x);
    LastAmong(resolve, info, first, w, x);
    var (t, v) := WalkLines(resolve, info, first, w, x);
    if v.Going? {
      LineMoves(resolve, info, first, t, uri);
      OneLineWalk(resolve, info, first, t, uri);
      hide WalkLine, IsTag;
      u := WalkLine(resolve, info, first, t, uri).0;
    } else {
      hide WalkLine, IsTag;
      EndsWanting(resolve, info, first, w, x);
      assert false;
    }
  }

  lemma OneLineWalk(resolve: Resolver, info: Info, first: nat, w: Walk, line: string)
    ensures WalkLines(resolve, info, first, w, [line]) == WalkLine(resolve, info, first, w, line)
  {
  }

  /** A walk that ends early ends at a segment it wants, so the last number it remembers is a smaller one. */
  lemma {:induction false} EndsWanting(resolve: Resolver, info: Info, first: nat, w: Walk, lines: seq<string>)
    ensures
      var (t, v) := WalkLines(resolve, info, first, w, lines);
      !v.Going? && t.mem.haveLast ==> t.mem.lastSeq < info.mediaSeq + w.idx + |Uris(w.pending, lines)|
    decreases |lines|
  {
    if lines != [] {
      LineMoves(resolve, info, first, w, lines[0]);
      hide IsTag, WalkLine, StartsWith, MapBehind;
      var (w1, v) := WalkLine(resolve, info, first, w, lines[0]);
      if v.Going? {
        EndsWanting(resolve, info, first, w1, lines[1..]);
      }
    }
  }

  /** Reading lines for the map is either independent of the map before them or leaves it alone. */
  lemma {:induction false} MapSettled(resolve: Resolver, a: string, b: string, lines: seq<string>)
    ensures
      || MapAfter(resolve, a, lines) == MapAfter(resolve, b, lines)
      || (MapAfter(resolve, a, lines) == a && MapAfter(resolve, b, lines) == b)
    decreases |lines|
  {
    if lines != [] {
      hide IsTag, StartsWith, AttrUri;
      MapSettled(resolve, MapBehind(resolve, a, lines[0]), MapBehind(resolve, b, lines[0]), lines[1..]);
    }
  }

  lemma {:induction false} FirstSettled(resolve: Resolver, a: string, b: string, pending: bool, lines: seq<string>)
    ensures
      || MapAtFirst(resolve, a, pending, lines) == MapAtFirst(resolve, b, pending, lines)
      || (MapAtFirst(resolve, a, pending, lines) == a && MapAtFirst(resolve, b, pending, lines) == b)
    decreases |lines|
  {
    if lines != [] {
      hide IsTag, StartsWith, AttrUri;
      var p := pending || (IsTag(lines[0]) && StartsWith(lines[0], EXTINF));
      FirstSettled(resolve, MapBehind(resolve, a, lines[0]), MapBehind(resolve, b, lines[0]), p, lines[1..]);
    }
  }

  /** The map left behind by reading a playlist up to the next segment is one for which reading it again agrees. */
  lemma SettledAgrees(resolve: Resolver, start: string, mapUrl: string, p: Anchored)
    requires mapUrl == MapAtFirst(resolve, MapAfter(resolve, start, Lines(p.before)), false, Lines(p.after))
    ensures MapsAgree(resolve, mapUrl, p)
  {
    hide MapAfter, MapAtFirst, Lines;
    var x, y := Lines(p.before), Lines(p.after);
    MapSettled(resolve, start, mapUrl, x);
    FirstSettled(resolve, MapAfter(resolve, start, x), mapUrl, false, y);
    FirstSettled(resolve, MapAfter(resolve, mapUrl, x), mapUrl, false, y);
    FirstSettled(resolve, MapAfter(resolve, mapUrl, x), MapAfter(resolve, start, x), false, y);
  }

  /**
   * The maps of a run agree: when a walk over a playlist ends, in whatever way, with the anchor as its last completed
   * segment, then the map it remembers is one with which the next tail refresh of that playlist is a full refresh.
   */
  lemma RememberedMap(resolve: Resolver, m: Memory, big: bool, p: Anchored, script: seq<Attempt>)
    requires var t := Process(resolve, m, big, Analysis(TextOf(p)), TextOf(p), script).0; AnchorsMemory(p, t.mem)
    ensures
      var t := Process(resolve, m, big, Analysis(TextOf(p)), TextOf(p), script).0;
      MapsAgree(resolve, t.mem.mapUrl, p)
  {
    hide Analysis, Lines, WalkLines, JoinIndex, AfterRestart, MapAfter, MapAtFirst, Uris, PendingAfter, MapsAgree, TextOf;
    var info := Analysis(TextOf(p));
    var m1 := AfterRestart(m, info);
    var first, w := JoinIndex(m1, info, big), StartWalk(m1, script);
    PlaylistLines(p);
    WalkPastAnchor(resolve, info, first, w, Lines(p.before), p.uri, Lines(p.after));
    SettledAgrees(resolve, m1.mapUrl, WalkLines(resolve, info, first, w, Lines(TextOf(p))).0.mem.mapUrl, p);
  }

  lemma WalkPastAnchor(resolve: Resolver, info: Info, first: nat, w: Walk, x: seq<string>, uri: string, y: seq<string>)
    requires w.idx == 0 && !w.pending && PendingAfter(false, x) && uri != "" && !IsTag(uri)
    requires
      var t := WalkLines(resolve, info, first, w, x + ([uri] + y)).0;
      t.mem.haveLast && t.mem.lastSeq == info.mediaSeq + |Uris(false, x)|
    ensures
      var t := WalkLines(resolve, info, first, w, x + ([uri] + y)).0;
      t.mem.mapUrl == MapAtFirst(resolve, MapAfter(resolve, w.mem.mapUrl, x), false, y)
  {
    hide WalkLines, MapAfter, MapAtFirst, Uris, PendingAfter, IsTag;
    assert x + ([uri] + y) == x + [uri] + y;
    WalkSplit(resolve, info, first, w, x + [uri], y);
    WalkArrives(resolve, info, first, w, x + [uri]);
    UrisConcat(false, x, [uri]);
    OneUri(uri);
    var (v, verdict) := WalkLines(resolve, info, first, w, x + [uri]);
    LastAmong(resolve, info, first, v, y);
    var u := AtAnchor(resolve, info, first, w, x, uri);
    StopsAhead(resolve, info, first, u, y);
  }

  lemma OneUri(uri: string)
    requires uri != "" && !IsTag(uri)
    ensures Uris(true, [uri]) == [uri]
  {
  }
}
