/**
 * Maps over whole live runs: while every segment keeps its map, each tail refresh of the control loop leaves the
 * trace of a full refresh of the playlist its tail came from.
 */
module LiveMaps {
  import opened Bytes
  import opened Text
  import opened Playlist
  import opened Schedule
  import opened Runs
  import opened Tail
  import opened TailMaps
  import opened PlayerSpec
  import opened Live

  // ---- segments and their maps

  /** A map the player may have in force when it starts to read a playlist. */
  ghost predicate Held(mapOf: int -> string, start: string) {
    start == "" || exists n :: start == mapOf(n)
  }

  /** Read from map `start` on, the map in force at each URI is that of its segment, and none comes behind the last. */
  ghost predicate ReadsMaps(resolve: Resolver, mapOf: int -> string, from: int, start: string, lines: seq<string>) {
    && (forall k :: 0 <= k < |lines| && IsUri(lines[k]) ==>
          MapAfter(resolve, start, lines[..k]) == mapOf(from + |Uris(false, lines[..k])|))
    && MapAfter(resolve, start, lines) ==
       if Uris(false, lines) == [] then start else mapOf(from + |Uris(false, lines)| - 1)
  }

  /** A playlist whose EXTINF tags all have their URI, and in which each segment has its map. */
  ghost predicate KeepsMaps(resolve: Resolver, mapOf: int -> string, text: string) {
    && |Uris(false, Lines(text))| == Analysis(text).nseg
    && forall start :: Held(mapOf, start) ==> ReadsMaps(resolve, mapOf, Analysis(text).mediaSeq, start, Lines(text))
  }

  /** Every state of the playlist keeps the maps, and its start never moves back either. */
  ghost predicate MapsKept(resolve: Resolver, mapOf: int -> string, ps: seq<string>) {
    && (forall text :: text in ps ==> KeepsMaps(resolve, mapOf, text))
    && forall i, j :: 0 <= i <= j < |ps| ==> StartAt(ps[i]) <= StartAt(ps[j])
  }

  function StartAt(text: string): int { Analysis(text).mediaSeq }

  /**
   * What the player's map is between two playlists that reach from `low` to `end`: that of the segment played last, or
   * of the next one, unless the playlists have left that segment behind.
   */
  ghost predicate Mapped(mapOf: int -> string, m: Memory, low: int, end: int) {
    && Held(mapOf, m.mapUrl)
    && (m.haveLast ==>
          || m.mapUrl == mapOf(m.lastSeq)
          || (m.lastSeq + 1 < end && m.mapUrl == mapOf(m.lastSeq + 1))
          || m.lastSeq + 1 < low)
  }

  // ---- reading lines for the map

  lemma {:induction false} MapConcat(resolve: Resolver, start: string, x: seq<string>, y: seq<string>)
    ensures MapAfter(resolve, start, x + y) == MapAfter(resolve, MapAfter(resolve, start, x), y)
    decreases |x|
  {
    hide MapBehind;
    if x == [] {
      assert x + y == y;
    } else {
      assert (x + y)[0] == x[0] && (x + y)[1..] == x[1..] + y;
      MapConcat(resolve, MapBehind(resolve, start, x[0]), x[1..], y);
    }
  }

  lemma {:induction false} PendingConcat(pending: bool, x: seq<string>, y: seq<string>)
    ensures PendingAfter(pending, x + y) == PendingAfter(PendingAfter(pending, x), y)
    decreases |x|
  {
    hide IsTag, StartsWith;
    if x == [] {
      assert x + y == y;
    } else {
      assert (x + y)[0] == x[0] && (x + y)[1..] == x[1..] + y;
      var p := if IsTag(x[0]) then pending || StartsWith(x[0], EXTINF) else if x[0] == "" || !pending then pending else false;
      PendingConcat(p, x[1..], y);
    }
  }

  /** One more line. */
  lemma LineFurther(resolve: Resolver, start: string, lines: seq<string>, k: nat)
    requires k < |lines|
    ensures
      var x, line := lines[..k], lines[k];
      var pending := PendingAfter(false, x);
      && MapAfter(resolve, start, lines[..k + 1]) == MapBehind(resolve, MapAfter(resolve, start, x), line)
      && Uris(false, lines[..k + 1]) == Uris(false, x) + (if IsUri(line) && pending then [line] else [])
      && PendingAfter(false, lines[..k + 1]) ==
         (if IsTag(line) then pending || StartsWith(line, EXTINF) else if line == "" then pending else false)
  {
    hide MapAfter, Uris, PendingAfter, IsTag, StartsWith, MapBehind;
    var x, line := lines[..k], lines[k];
    assert lines[..k + 1] == x + [line];
    MapConcat(resolve, start, x, [line]);
    UrisConcat(false, x, [line]);
    PendingConcat(false, x, [line]);
    OfOneLine(resolve, MapAfter(resolve, start, x), PendingAfter(false, x), line);
  }

  lemma OfOneLine(resolve: Resolver, start: string, pending: bool, line: string)
    ensures
      && MapAfter(resolve, start, [line]) == MapBehind(resolve, start, line)
      && Uris(pending, [line]) == (if IsUri(line) && pending then [line] else [])
      && PendingAfter(pending, [line]) ==
         (if IsTag(line) then pending || StartsWith(line, EXTINF) else if line == "" then pending else false)
  {
    hide MapBehind, StartsWith;
    assert [line][1..] == [];
  }

  // ---- a walk over a whole playlist

  /** A walk that has got to line `k`. */
  ghost predicate At(resolve: Resolver, info: Info, start: string, lines: seq<string>, w: Walk, k: nat)
    requires k <= |lines|
  {
    && w.mem.mapUrl == MapAfter(resolve, start, lines[..k])
    && w.idx == |Uris(false, lines[..k])| && w.pending == PendingAfter(false, lines[..k])
    && (w.mem.haveLast ==>
          w.mem.lastSeq >= info.mediaSeq + w.idx - 1 || (w.mem.lastSeq + 1 < info.mediaSeq && w.idx == 0))
  }

  /** How a walk ends: at a wanted segment, with its map in force, or behind all lines. */
  ghost predicate Ends(resolve: Resolver, mapOf: int -> string, from: int, start: string, lines: seq<string>, m: Memory) {
    var n := |Uris(false, lines)|;
    || (&& m.mapUrl == MapAfter(resolve, start, lines)
        && (m.haveLast ==> m.lastSeq >= from + n - 1 || (m.lastSeq + 1 < from && n == 0)))
    || (exists j :: from <= j < from + n && m.mapUrl == mapOf(j)
                    && (m.haveLast ==> m.lastSeq == j - 1 || m.lastSeq + 1 < from))
  }

  lemma {:induction false} WalkEnds(resolve: Resolver, mapOf: int -> string, info: Info, first: nat, start: string,
                                    lines: seq<string>, w: Walk, k: nat)
    requires k <= |lines| && At(resolve, info, start, lines, w, k)
    requires ReadsMaps(resolve, mapOf, info.mediaSeq, start, lines)
    ensures Ends(resolve, mapOf, info.mediaSeq, start, lines, WalkLines(resolve, info, first, w, lines[k..]).0.mem)
    decreases |lines| - k
  {
    if k == |lines| {
      hide MapAfter, Uris, PendingAfter;
      assert lines[..k] == lines && lines[k..] == [];
    } else {
      hide At, Ends, ReadsMaps, WalkLine;
      var (w1, v) := WalkLine(resolve, info, first, w, lines[k]);
      assert lines[k..][0] == lines[k] && lines[k..][1..] == lines[k + 1..];
      if v.Going? {
        LineTaken(resolve, info, first, start, lines, w, k);
        WalkEnds(resolve, mapOf, info, first, start, lines, w1, k + 1);
      } else {
        LineStopped(resolve, mapOf, info, first, start, lines, w, k);
      }
    }
  }

  lemma LineTaken(resolve: Resolver, info: Info, first: nat, start: string, lines: seq<string>, w: Walk, k: nat)
    requires k < |lines| && At(resolve, info, start, lines, w, k) && WalkLine(resolve, info, first, w, lines[k]).1 == Going
    ensures At(resolve, info, start, lines, WalkLine(resolve, info, first, w, lines[k]).0, k + 1)
  {
    hide MapAfter, Uris, PendingAfter, MapBehind, StartsWith, WalkLine;
    LineFurther(resolve, start, lines, k);
    LineMoves(resolve, info, first, w, lines[k]);
  }

  lemma LineStopped(resolve: Resolver, mapOf: int -> string, info: Info, first: nat, start: string, lines: seq<string>,
                    w: Walk, k: nat)
    requires k < |lines| && At(resolve, info, start, lines, w, k) && WalkLine(resolve, info, first, w, lines[k]).1 != Going
    requires ReadsMaps(resolve, mapOf, info.mediaSeq, start, lines)
    ensures Ends(resolve, mapOf, info.mediaSeq, start, lines, WalkLine(resolve, info, first, w, lines[k]).0.mem)
  {
    LineMoves(resolve, info, first, w, lines[k]);
    hide MapAfter, Uris, PendingAfter, MapBehind, StartsWith, WalkLine, IsTag;
    assert IsUri(lines[k]);
    LineFurther(resolve, start, lines, k);
    MoreUris(lines, k + 1);
  }

  lemma MoreUris(lines: seq<string>, k: nat)
    requires k <= |lines|
    ensures |Uris(false, lines[..k])| <= |Uris(false, lines)|
  {
    assert lines == lines[..k] + lines[k..];
    UrisConcat(false, lines[..k], lines[k..]);
  }

  /** Walking a playlist that keeps the maps. */
  lemma WalkMapped(resolve: Resolver, mapOf: int -> string, uriOf: int -> string, m: Memory, r: Refresh, low: int, end: int)
    requires KeepsMaps(resolve, mapOf, r.text) && Mapped(mapOf, m, low, end)
    requires low <= StartAt(r.text) && end <= EndAt(r.text) && (m.haveLast ==> m.lastSeq < end)
    ensures Mapped(mapOf, Play(resolve, m, r).mem, StartAt(r.text), EndAt(r.text))
  {
    hide WalkLines, JoinIndex, Analysis, Lines, Uris, MapAfter, PendingAfter, ReadsMaps, Ends, Held;
    var info, lines, w := InfoOf(r), Lines(r.text), StartWalk(m, r.script);
    assert AfterRestart(m, info) == m;
    assert lines[..0] == [] && lines[0..] == lines;
    NothingRead(resolve, m.mapUrl);
    assert ReadsMaps(resolve, mapOf, info.mediaSeq, m.mapUrl, lines);
    WalkEnds(resolve, mapOf, info, JoinIndex(m, info, r.big), m.mapUrl, lines, w, 0);
    RefreshStep(resolve, uriOf, m, r);
    EndsMapped(resolve, mapOf, m, info.mediaSeq, info.mediaSeq + info.nseg, lines, Play(resolve, m, r).mem, low, end);
  }

  lemma NothingRead(resolve: Resolver, start: string)
    ensures MapAfter(resolve, start, []) == start && Uris(false, []) == [] && PendingAfter(false, []) == false
  {
  }

  lemma EndsMapped(resolve: Resolver, mapOf: int -> string, m: Memory, from: int, to: int, lines: seq<string>, mem: Memory,
                   low: int, end: int)
    requires Mapped(mapOf, m, low, end) && low <= from && end <= to && to == from + |Uris(false, lines)|
    requires ReadsMaps(resolve, mapOf, from, m.mapUrl, lines) && Ends(resolve, mapOf, from, m.mapUrl, lines, mem)
    requires mem.haveLast ==> mem.lastSeq < to
    requires |Uris(false, lines)| == 0 ==> mem.haveLast == m.haveLast && mem.lastSeq == m.lastSeq
    ensures Mapped(mapOf, mem, from, to)
  {
    hide MapAfter, Uris;
    var n := |Uris(false, lines)|;
    if mem.mapUrl == MapAfter(resolve, m.mapUrl, lines) && (mem.haveLast ==> mem.lastSeq >= from + n - 1 || (mem.lastSeq + 1 < from && n == 0)) {
      if n > 0 {
        assert mem.mapUrl == mapOf(from + n - 1);
      }
    } else {
      var j :| from <= j < from + n && mem.mapUrl == mapOf(j) && (mem.haveLast ==> mem.lastSeq == j - 1 || mem.lastSeq + 1 < from);
      assert mem.mapUrl == mapOf(j);
    }
  }

  // ---- a tail refresh against a full one

  lemma {:induction false} TaggedBehind(pending: bool, x: seq<string>, y: seq<string>)
    requires Tagged(pending, x + y)
    ensures Tagged(PendingAfter(pending, x), y)
    decreases |x|
  {
    if x == [] {
      assert x + y == y;
    } else {
      assert (x + y)[0] == x[0] && (x + y)[1..] == x[1..] + y;
      hide StartsWith;
      var p := if IsTag(x[0]) then pending || StartsWith(x[0], EXTINF) else if x[0] == "" || !pending then pending else false;
      TaggedBehind(p, x[1..], y);
    }
  }

  /** Where the first segment among some lines is. */
  lemma {:induction false} FirstUri(resolve: Resolver, start: string, pending: bool, lines: seq<string>) returns (k: nat)
    requires Tagged(pending, lines)
    ensures k <= |lines| && MapAtFirst(resolve, start, pending, lines) == MapAfter(resolve, start, lines[..k])
    ensures Uris(pending, lines[..k]) == [] && (Uris(pending, lines) == [] ==> k == |lines|)
    ensures Uris(pending, lines) != [] ==> k < |lines| && IsUri(lines[k])
    decreases |lines|
  {
    hide StartsWith, MapBehind;
    if lines == [] {
      k := 0;
    } else if IsTag(lines[0]) || lines[0] == "" {
      var p := pending || (IsTag(lines[0]) && StartsWith(lines[0], EXTINF));
      var next := MapBehind(resolve, start, lines[0]);
      assert lines[0] == "" ==> next == start by {
        NoTagNoMap(resolve, start, lines[0]);
      }
      k := FirstUri(resolve, next, p, lines[1..]);
      k := k + 1;
      assert lines[..k][0] == lines[0] && lines[..k][1..] == lines[1..][..k - 1];
    } else {
      k := 0;
      assert lines[..0] == [];
    }
  }

  lemma NoTagNoMap(resolve: Resolver, start: string, line: string)
    ensures !IsTag(line) ==> MapBehind(resolve, start, line) == start
  {
  }

  /** The map of the first segment behind the anchor, read with the whole playlist. */
  lemma MapBehindAnchor(resolve: Resolver, mapOf: int -> string, from: int, start: string, x: seq<string>, uri: string, z: seq<string>)
    requires IsUri(uri) && Tagged(false, x + ([uri] + z)) && ReadsMaps(resolve, mapOf, from, start, x + ([uri] + z))
    ensures
      var n, here := from + |Uris(false, x)|, MapAfter(resolve, start, x);
      && here == mapOf(n)
      && MapAtFirst(resolve, here, false, z) == mapOf(if Uris(false, z) == [] then n else n + 1)
  {
    hide *;
    MapAtAnchor(resolve, mapOf, from, start, x, uri, z);
    var k := FirstBehind(resolve, MapAfter(resolve, start, x), x, uri, z);
    if Uris(false, z) == [] {
      NoneBehind(resolve, mapOf, from, start, x, uri, z, k);
    } else {
      SomeBehind(resolve, mapOf, from, start, x, uri, z, k);
    }
  }

  lemma MapAtAnchor(resolve: Resolver, mapOf: int -> string, from: int, start: string, x: seq<string>, uri: string, z: seq<string>)
    requires IsUri(uri) && ReadsMaps(resolve, mapOf, from, start, x + ([uri] + z))
    ensures MapAfter(resolve, start, x) == mapOf(from + |Uris(false, x)|)
  {
    hide *;
    Parts(x, uri, z, 0);
    MapAtUri(resolve, mapOf, from, start, x + ([uri] + z), |x|);
  }

  lemma FirstBehind(resolve: Resolver, here: string, x: seq<string>, uri: string, z: seq<string>) returns (k: nat)
    requires IsUri(uri) && Tagged(false, x + ([uri] + z))
    ensures k <= |z| && MapAtFirst(resolve, here, false, z) == MapAfter(resolve, here, z[..k]) && PendingAfter(false, x)
    ensures Uris(false, z[..k]) == [] && (Uris(false, z) == [] ==> k == |z|)
    ensures Uris(false, z) != [] ==> k < |z| && IsUri(z[k])
  {
    hide *;
    TaggedPending(false, x, uri, z);
    Parts(x, uri, z, 0);
    TaggedBehind(false, x + [uri], z);
    BehindUri(resolve, here, x, uri);
    k := FirstUri(resolve, here, false, z);
  }

  lemma NoneBehind(resolve: Resolver, mapOf: int -> string, from: int, start: string, x: seq<string>, uri: string,
                   z: seq<string>, k: nat)
    requires IsUri(uri) && PendingAfter(false, x) && k == |z| && Uris(false, z) == []
    requires ReadsMaps(resolve, mapOf, from, start, x + ([uri] + z))
    ensures MapAfter(resolve, MapAfter(resolve, start, x), z[..k]) == mapOf(from + |Uris(false, x)|)
  {
    hide *;
    Parts(x, uri, z, k);
    MapFurther(resolve, start, x, uri, z, k);
    MapAtEnd(resolve, mapOf, from, start, x + ([uri] + z));
  }

  lemma SomeBehind(resolve: Resolver, mapOf: int -> string, from: int, start: string, x: seq<string>, uri: string,
                   z: seq<string>, k: nat)
    requires IsUri(uri) && PendingAfter(false, x) && k < |z| && IsUri(z[k]) && Uris(false, z[..k]) == []
    requires ReadsMaps(resolve, mapOf, from, start, x + ([uri] + z))
    ensures MapAfter(resolve, MapAfter(resolve, start, x), z[..k]) == mapOf(from + |Uris(false, x)| + 1)
  {
    hide *;
    Parts(x, uri, z, k);
    MapFurther(resolve, start, x, uri, z, k);
    MapAtUri(resolve, mapOf, from, start, x + ([uri] + z), |x| + 1 + k);
  }

  lemma MapAtUri(resolve: Resolver, mapOf: int -> string, from: int, start: string, lines: seq<string>, k: nat)
    requires ReadsMaps(resolve, mapOf, from, start, lines) && k < |lines| && IsUri(lines[k])
    ensures MapAfter(resolve, start, lines[..k]) == mapOf(from + |Uris(false, lines[..k])|)
  {
    hide MapAfter, Uris, IsUri;
  }

  lemma MapAtEnd(resolve: Resolver, mapOf: int -> string, from: int, start: string, lines: seq<string>)
    requires ReadsMaps(resolve, mapOf, from, start, lines)
    ensures
      Uris(false, lines) != [] ==> MapAfter(resolve, start, lines) == mapOf(from + |Uris(false, lines)| - 1)
  {
    hide MapAfter, Uris, IsUri;
  }

  /** Reading on from the anchor, up to line `k` behind it. */
  lemma MapFurther(resolve: Resolver, start: string, x: seq<string>, uri: string, z: seq<string>, k: nat)
    requires IsUri(uri) && PendingAfter(false, x) && k <= |z|
    ensures
      var part := (x + ([uri] + z))[..|x| + 1 + k];
      && MapAfter(resolve, start, part) == MapAfter(resolve, MapAfter(resolve, start, x), z[..k])
      && |Uris(false, part)| == |Uris(false, x)| + 1 + |Uris(false, z[..k])|
  {
    hide MapAfter, Uris, PendingAfter, IsUri;
    Parts(x, uri, z, k);
    BehindUri(resolve, start, x, uri);
    MapConcat(resolve, start, x + [uri], z[..k]);
    UrisConcat(false, x + [uri], z[..k]);
  }

  /** The lines around a URI, and up to line `k` behind it. */
  lemma Parts(x: seq<string>, uri: string, z: seq<string>, k: nat)
    requires k <= |z|
    ensures
      var all := x + ([uri] + z);
      && |all| == |x| + 1 + |z| && all[|x|] == uri && all[..|x|] == x && all == (x + [uri]) + z
      && all[..|x| + 1 + k] == (x + [uri]) + z[..k] && (k < |z| ==> all[|x| + 1 + k] == z[k])
      && all[..|all|] == all && z[..|z|] == z
  {
  }

  lemma BehindUri(resolve: Resolver, start: string, x: seq<string>, uri: string)
    requires IsUri(uri) && PendingAfter(false, x)
    ensures MapAfter(resolve, start, x + [uri]) == MapAfter(resolve, start, x)
    ensures !PendingAfter(false, x + [uri]) && |Uris(false, x + [uri])| == |Uris(false, x)| + 1
  {
    var all := x + [uri];
    assert all[..|x|] == x && all[..|x| + 1] == all && all[|x|] == uri;
    LineFurther(resolve, start, all, |x|);
    NoTagNoMap(resolve, MapAfter(resolve, start, x), uri);
    hide MapAfter, Uris, PendingAfter, MapBehind;
  }

  /** With the map the player has kept, the first segment behind the anchor has the map it has in the whole playlist. */
  lemma AnchorAgrees(resolve: Resolver, mapOf: int -> string, m: Memory, low: int, end: int, from: int, x: seq<string>,
                     uri: string, z: seq<string>)
    requires IsUri(uri) && Tagged(false, x + ([uri] + z)) && ReadsMaps(resolve, mapOf, from, m.mapUrl, x + ([uri] + z))
    requires Mapped(mapOf, m, low, end) && m.haveLast && m.lastSeq == from + |Uris(false, x)| && low <= from
    requires end <= from + |Uris(false, x)| + 1 + |Uris(false, z)|
    ensures
      MapAtFirst(resolve, MapAfter(resolve, m.mapUrl, x), false, z) == MapAtFirst(resolve, m.mapUrl, false, z)
  {
    MapBehindAnchor(resolve, mapOf, from, m.mapUrl, x, uri, z);
    FirstSettled(resolve, MapAfter(resolve, m.mapUrl, x), m.mapUrl, false, z);
    hide MapAfter, MapAtFirst, Uris, Tagged, ReadsMaps, Held;
  }

  /** Walking a whole playlist from behind the segment played last. */
  lemma WholeWalk(resolve: Resolver, info: Info, first: nat, m: Memory, script: seq<Attempt>, x: seq<string>, uri: string,
                  z: seq<string>) returns (w: Walk)
    requires IsUri(uri) && PendingAfter(false, x) && m.haveLast && m.lastSeq == info.mediaSeq + |Uris(false, x)|
    ensures
      WalkLines(resolve, info, first, StartWalk(m, script), x + ([uri] + z)) == WalkLines(resolve, info, first, w, z)
    ensures w == Walk(w.idx, false, false, m.(mapUrl := MapAfter(resolve, m.mapUrl, x)), script, [], [])
    ensures info.mediaSeq + w.idx == m.lastSeq + 1
  {
    hide FetchSegment, MapAfter, Uris, PendingAfter, IsTag;
    var disc := PlayedLines(resolve, info, first, StartWalk(m, script), x, [uri] + z);
    var w0 := Walk(|Uris(false, x)|, true, disc, m.(mapUrl := MapAfter(resolve, m.mapUrl, x)), script, [], []);
    assert ([uri] + z)[0] == uri && ([uri] + z)[1..] == z;
    w := w0.(idx := w0.idx + 1, pending := false, disc := false);
    assert WalkLine(resolve, info, first, w0, uri) == (w, Going);
  }

  /**
   * A tail refresh is a full refresh of the playlist the tail is from: same requests, same completed segments, same
   * memory, wherever the tail begins and whatever the downloads do.
   */
  lemma TailTrace(resolve: Resolver, uriOf: int -> string, mapOf: int -> string, m: Memory, text: string, cut: nat,
                  target: nat, big: bool, script: seq<Attempt>, low: int, end: int)
    requires GoodNames(uriOf) && Listed(uriOf, text) && KeepsMaps(resolve, mapOf, text) && cut <= |text|
    requires m.haveLast && Remembered(uriOf, m, EndAt(text)) && Mapped(mapOf, m, low, end)
    requires low <= StartAt(text) && end <= EndAt(text)
    requires Spliced(text[cut..], m.lastUri, target, m.lastSeq).Some?
    ensures
      var spliced := Spliced(text[cut..], m.lastUri, target, m.lastSeq).value;
      TraceOf(Process(resolve, m, big, Analysis(spliced), spliced, script))
      == TraceOf(Process(resolve, m, big, Analysis(text), text, script))
  {
    hide Lines, LineEnd, AfterLine, AfterLast, Spliced, Header, Analysis, Trim, Uris, Infs, Tagged, NumberedFirst, IsUri;
    hide WalkLines, JoinIndex, MapAfter, MapAtFirst, ReadsMaps, PendingAfter, Plain;
    SplicedText(m.lastUri, text[cut..], target, m.lastSeq);
    var uri, rest := m.lastUri, AfterLast(AfterLine(text[cut..]), m.lastUri).value;
    assert uri == uriOf(m.lastSeq) && IsNumber(m.lastSeq);
    var x := AnchorIsLine(text, cut, uri);
    var z, info := Lines(rest), Analysis(text);
    assert x + [uri] + z == x + ([uri] + z);
    AroundUri(x, uri, z);
    PlainBehind(x, uri, z);
    InfsAreCounted(text);
    NumberOfUri(uriOf, info.mediaSeq, Uris(false, x), uri, Uris(false, z), m.lastSeq);
    TaggedPending(false, x, uri, z);
    assert ReadsMaps(resolve, mapOf, info.mediaSeq, m.mapUrl, Lines(text));
    AnchorAgrees(resolve, mapOf, m, low, end, info.mediaSeq, x, uri, z);
    SameTrace(resolve, m, big, target, text, script, x, uri, rest);
  }

  lemma SameTrace(resolve: Resolver, m: Memory, big: bool, target: nat, text: string, script: seq<Attempt>, x: seq<string>,
                  uri: string, rest: string)
    requires Lines(text) == x + ([uri] + Lines(rest)) && IsUri(uri) && PendingAfter(false, x) && m.haveLast
    requires IsNumber(m.lastSeq) && IsNumber(m.lastSeq + 1) && m.lastSeq < EndAt(text)
    requires m.lastSeq == StartAt(text) + |Uris(false, x)| && forall l :: l in Lines(rest) ==> Plain(l)
    requires
      MapAtFirst(resolve, MapAfter(resolve, m.mapUrl, x), false, Lines(rest)) ==
      MapAtFirst(resolve, m.mapUrl, false, Lines(rest))
    ensures
      var spliced := Header(target, m.lastSeq) + rest;
      TraceOf(Process(resolve, m, big, Analysis(spliced), spliced, script))
      == TraceOf(Process(resolve, m, big, Analysis(text), text, script))
  {
    hide Lines, Header, Analysis, Uris, IsUri, WalkLines, JoinIndex, MapAfter, MapAtFirst, PendingAfter, Plain;
    var spliced, z := Header(target, m.lastSeq) + rest, Lines(rest);
    var j, k := Analysis(spliced), Analysis(text);
    SplicedNotRestarted(m, target, rest);
    assert AfterRestart(m, k) == m;
    var f, g := JoinIndex(m, k, big), JoinIndex(m, j, big);
    var w := WholeWalk(resolve, k, f, m, script, x, uri, z);
    SplicedWalk(resolve, m, j, g, Anchored("", "", "", rest), target, script);
    MapsMeet(resolve, k, j, f, g, w, StartWalk(m, script), z);
  }

  // ---- the control loop

  /** The rounds that walk a playlist do so from one URL: master playlists come first. */
  ghost predicate AtBase(urls: UrlResolver, base: string, p: Player, rs: seq<Round>)
    decreases |rs|
  {
    rs == [] ||
    (&& (Walks(p, rs[0]) ==> p.url == base)
     && (PlayRound(urls, p, rs[0]).result.None? ==> AtBase(urls, base, PlayRound(urls, p, rs[0]).p, rs[1..])))
  }

  /** The round walks a playlist spliced from a tail. */
  predicate WalksTail(p: Player, r: Round) {
    && Walks(p, r) && WantsTail(p) && r.tail.rc == Good
    && Spliced(Seen(r.tail.body), p.mem.lastUri, p.target, p.mem.lastSeq).Some?
  }

  /** What the player knows between rounds. */
  ghost predicate Sound(uriOf: int -> string, mapOf: int -> string, m: Memory, text: string) {
    Remembered(uriOf, m, EndAt(text)) && Mapped(mapOf, m, StartAt(text), EndAt(text))
  }

  /** The playlist states of a run, with names and maps kept. */
  ghost predicate Kept(urls: UrlResolver, base: string, uriOf: int -> string, mapOf: int -> string, ps: seq<string>) {
    Published(uriOf, ps) && MapsKept(Against(urls, base), mapOf, ps)
  }

  /** In a round that walks a tail, the walk leaves the trace of a full refresh of the playlist the tail is from. */
  ghost predicate LikeFull(urls: UrlResolver, p: Player, r: Round, full: string) {
    var text, resolve := FetchManifest(p, r).text, Against(urls, p.url);
    TraceOf(Process(resolve, p.mem, p.big, Analysis(text), text, r.script))
    == TraceOf(Process(resolve, p.mem, p.big, Analysis(full), full, r.script))
  }

  lemma TailRound(urls: UrlResolver, base: string, uriOf: int -> string, mapOf: int -> string, ps: seq<string>, at: nat,
                  p: Player, r: Round, g: Glimpse)
    requires Kept(urls, base, uriOf, mapOf, ps) && at < |ps| && Delivered(ps, at, r, g) && Sound(uriOf, mapOf, p.mem, ps[at])
    requires WalksTail(p, r) && p.url == base
    ensures LikeFull(urls, p, r, ps[g.tail])
  {
    hide Analysis, Seen, Spliced, Process, Listed, KeepsMaps, GoodNames, Mapped, IsManifest;
    var text := ps[g.tail];
    assert text in ps;
    assert EndAt(ps[at]) <= EndAt(text) && StartAt(ps[at]) <= StartAt(text);
    hide EndAt, StartAt;
    RememberedLonger(uriOf, p.mem, EndAt(ps[at]), EndAt(text));
    TailTrace(Against(urls, p.url), uriOf, mapOf, p.mem, text, g.cut, p.target, p.big, r.script,
              StartAt(ps[at]), EndAt(ps[at]));
  }

  lemma MappedLonger(mapOf: int -> string, m: Memory, low: int, end: int, low': int, end': int)
    requires Mapped(mapOf, m, low, end) && low <= low' && end <= end'
    ensures Mapped(mapOf, m, low', end')
  {
    hide Held;
  }

  /** Which text a round walks. */
  lemma RoundSource(p: Player, r: Round)
    requires Walks(p, r)
    ensures
      var m := FetchManifest(p, r);
      if WalksTail(p, r) then
        m.big == p.big && m.text == Spliced(Seen(r.tail.body), p.mem.lastUri, p.target, p.mem.lastSeq).value
      else r.full.rc == Good && m.text == Seen(r.full.body)
  {
    hide Analysis, IsManifest, Seen, Spliced;
  }

  lemma RoundMapped(urls: UrlResolver, base: string, uriOf: int -> string, mapOf: int -> string, ps: seq<string>, at: nat,
                    p: Player, r: Round, g: Glimpse)
    requires Kept(urls, base, uriOf, mapOf, ps) && at < |ps| && Delivered(ps, at, r, g) && Sound(uriOf, mapOf, p.mem, ps[at])
    requires Walks(p, r) && p.url == base
    ensures Mapped(mapOf, PlayRound(urls, p, r).p.mem, StartAt(ps[g.full]), EndAt(ps[g.full]))
  {
    RoundWalks(urls, p, r);
    RoundSource(p, r);
    var from := if WalksTail(p, r) then g.tail else g.full;
    if WalksTail(p, r) {
      TailRound(urls, base, uriOf, mapOf, ps, at, p, r, g);
    }
    hide PlayRound, Analysis, Seen, Spliced, Process, Listed, KeepsMaps, GoodNames, Mapped, IsManifest, WalksTail;
    var whole := Refresh(ps[from], RefreshOf(p, r).big, r.script);
    assert PlayRound(urls, p, r).p.mem == Play(Against(urls, base), p.mem, whole).mem;
    assert ps[from] in ps;
    assert EndAt(ps[at]) <= EndAt(ps[from]) <= EndAt(ps[g.full]) && StartAt(ps[at]) <= StartAt(ps[from]) <= StartAt(ps[g.full]);
    hide EndAt, StartAt, FetchManifest;
    WalkMapped(Against(urls, base), mapOf, uriOf, p.mem, whole, StartAt(ps[at]), EndAt(ps[at]));
    MappedLonger(mapOf, Play(Against(urls, base), p.mem, whole).mem, StartAt(ps[from]), EndAt(ps[from]),
                 StartAt(ps[g.full]), EndAt(ps[g.full]));
  }

  lemma RoundSound(urls: UrlResolver, base: string, uriOf: int -> string, mapOf: int -> string, ps: seq<string>, at: nat,
                   p: Player, r: Round, g: Glimpse)
    requires Kept(urls, base, uriOf, mapOf, ps) && at < |ps| && Delivered(ps, at, r, g) && Sound(uriOf, mapOf, p.mem, ps[at])
    requires Walks(p, r) ==> p.url == base
    ensures Sound(uriOf, mapOf, PlayRound(urls, p, r).p.mem, ps[g.full])
  {
    var t := PlayRound(urls, p, r);
    RoundProgress(urls, uriOf, ps, at, p, r, g);
    ProgressRemembers(uriOf, p.mem, Walks(p, r) ==> Near(p, r), t.done, t.p.mem, EndAt(ps[g.full]));
    RoundWalks(urls, p, r);
    if Walks(p, r) {
      RoundMapped(urls, base, uriOf, mapOf, ps, at, p, r, g);
    } else {
      hide PlayRound, Listed, KeepsMaps, GoodNames, Mapped, Seen, Analysis, Walks;
      assert EndAt(ps[at]) <= EndAt(ps[g.full]) && StartAt(ps[at]) <= StartAt(ps[g.full]);
      MappedLonger(mapOf, p.mem, StartAt(ps[at]), EndAt(ps[at]), StartAt(ps[g.full]), EndAt(ps[g.full]));
    }
  }

  /** Every round of a run that walks a tail does what a full refresh would. */
  ghost predicate TailsLikeFull(urls: UrlResolver, ps: seq<string>, p: Player, rs: seq<Round>, gs: seq<Glimpse>)
    requires |gs| == |rs|
    decreases |rs|
  {
    rs == [] ||
    (&& (WalksTail(p, rs[0]) ==> gs[0].tail < |ps| && LikeFull(urls, p, rs[0], ps[gs[0].tail]))
     && (PlayRound(urls, p, rs[0]).result.None? ==>
           TailsLikeFull(urls, ps, PlayRound(urls, p, rs[0]).p, rs[1..], gs[1..])))
  }

  lemma {:induction false} LoopTails(urls: UrlResolver, base: string, uriOf: int -> string, mapOf: int -> string,
                                     ps: seq<string>, at: nat, p: Player, rs: seq<Round>, gs: seq<Glimpse>)
    requires Kept(urls, base, uriOf, mapOf, ps) && at < |ps| && AllDelivered(ps, at, rs, gs)
    requires Sound(uriOf, mapOf, p.mem, ps[at]) && AtBase(urls, base, p, rs)
    ensures TailsLikeFull(urls, ps, p, rs, gs)
    decreases |rs|
  {
    hide PlayRound, Kept, Sound, Delivered, LikeFull, Walks;
    if rs != [] {
      var t, g := PlayRound(urls, p, rs[0]), gs[0];
      DeliveredIn(ps, at, rs[0], g);
      if WalksTail(p, rs[0]) {
        TailRound(urls, base, uriOf, mapOf, ps, at, p, rs[0], g);
        TailInRange(ps, at, rs[0], g);
      }
      RoundSound(urls, base, uriOf, mapOf, ps, at, p, rs[0], g);
      if t.result.None? {
        LoopTails(urls, base, uriOf, mapOf, ps, g.full, t.p, rs[1..], gs[1..]);
      }
    }
  }

  lemma TailInRange(ps: seq<string>, at: nat, r: Round, g: Glimpse)
    requires Delivered(ps, at, r, g)
    ensures g.tail < |ps|
  {
    hide Seen, Analysis;
  }

  /**
   * Over every run from the start of the player: while the playlist keeps names, numbers and maps, a tail refresh does
   * what a full refresh of the same playlist would do, in every round that has one.
   */
  lemma LiveTails(urls: UrlResolver, url: string, base: string, uriOf: int -> string, mapOf: int -> string,
                  ps: seq<string>, rs: seq<Round>, gs: seq<Glimpse>)
    requires Kept(urls, base, uriOf, mapOf, ps) && ps != [] && AllDelivered(ps, 0, rs, gs)
    requires AtBase(urls, base, Start(url), rs)
    ensures TailsLikeFull(urls, ps, Start(url), rs, gs)
  {
    hide Kept, AllDelivered, AtBase, TailsLikeFull;
    LoopTails(urls, base, uriOf, mapOf, ps, 0, Start(url), rs, gs);
  }
}
