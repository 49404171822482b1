/** Scheduling over whole runs: any number of playlist refreshes, with any mix of failing downloads. */
module Runs {
  import opened Bytes
  import opened Text
  import opened Playlist
  import opened Schedule

  /** One playlist download and what the environment does with its segments. */
  datatype Refresh = Refresh(text: string, big: bool, script: seq<Attempt>)

  function InfoOf(r: Refresh): Info { Analysis(r.text) }

  function UrisOf(r: Refresh): seq<string> { Uris(false, Lines(r.text)) }

  /** The first number behind the playlist. */
  function EndOf(r: Refresh): int { InfoOf(r).mediaSeq + InfoOf(r).nseg }

  function Play(resolve: Resolver, m: Memory, r: Refresh): Walk {
    Process(resolve, m, r.big, InfoOf(r), r.text, r.script).0
  }

  /** The segments completed by a run of refreshes, in order. */
  function PlayAll(resolve: Resolver, m: Memory, rs: seq<Refresh>): seq<Segment>
    decreases |rs|
  {
    if rs == [] then []
    else
      var w := Play(resolve, m, rs[0]);
      w.done + PlayAll(resolve, w.mem, rs[1..])
  }

  // ---- playlists as RFC 8216, section 6.2.2, requires them

  /** The end of the playlist never moves back. */
  predicate NeverBack(end: int, rs: seq<Refresh>)
    decreases |rs|
  {
    rs == [] || (EndOf(rs[0]) >= end && NeverBack(EndOf(rs[0]), rs[1..]))
  }

  /** Every segment keeps its number. */
  ghost predicate KeepsNumbers(uriOf: int -> string, rs: seq<Refresh>) {
    forall r :: r in rs ==> Names(uriOf, InfoOf(r).mediaSeq, UrisOf(r))
  }

  ghost predicate Names(uriOf: int -> string, from: int, uris: seq<string>) {
    forall i :: 0 <= i < |uris| ==> uris[i] == uriOf(from + i)
  }

  /** The player never falls behind the playlist's window. */
  ghost predicate InWindow(resolve: Resolver, m: Memory, rs: seq<Refresh>)
    decreases |rs|
  {
    rs == [] ||
    (&& (m.haveLast ==> InfoOf(rs[0]).mediaSeq <= m.lastSeq + 1)
     && InWindow(resolve, Play(resolve, m, rs[0]).mem, rs[1..]))
  }

  // ---- one refresh

  lemma {:induction false} UrisAreCounted(pending: bool, lines: seq<string>)
    ensures |Uris(pending, lines)| <= Infs(lines) + if pending then 1 else 0
    decreases |lines|
  {
    if lines != [] {
      InfIsNothingElse(lines[0]);
      if IsTag(lines[0]) {
        UrisAreCounted(pending || StartsWith(lines[0], EXTINF), lines[1..]);
      } else {
        UrisAreCounted(if lines[0] == "" || !pending then pending else false, lines[1..]);
      }
    }
  }

  lemma ListedFits(r: Refresh)
    ensures |UrisOf(r)| <= InfoOf(r).nseg
  {
    UrisAreCounted(false, Lines(r.text));
    ScanCounts(EMPTY_SCAN, Lines(r.text));
  }

  /** Numbers that follow each other without a gap, from `from` on. */
  ghost predicate Consecutive(from: int, ss: seq<Segment>) {
    forall i :: 0 <= i < |ss| ==> ss[i].number == from + i
  }

  ghost predicate Named(uriOf: int -> string, ss: seq<Segment>) {
    forall i :: 0 <= i < |ss| ==> ss[i].uri == uriOf(ss[i].number)
  }

  /** What the plan of one playlist looks like. */
  lemma PlanShape(uriOf: int -> string, m: Memory, info: Info, first: nat, uris: seq<string>)
    ensures var plan, n := Plan(m, info, 0, first, uris), Passed(m, info.mediaSeq, 0, first);
            && Consecutive(info.mediaSeq + n, plan)
            && (plan != [] ==> n + |plan| == |uris|)
            && (plan == [] ==> n >= |uris|)
            && (Names(uriOf, info.mediaSeq, uris) ==> Named(uriOf, plan))
  {
    var n := Passed(m, info.mediaSeq, 0, first);
    if n < |uris| {
      var rest := uris[n..];
      NumberedLength(rest, info.mediaSeq + n);
      var plan := Numbered(rest, info.mediaSeq + n);
      forall i | 0 <= i < |rest| ensures plan[i] == Segment(info.mediaSeq + n + i, rest[i]) {
        NumberedAt(rest, info.mediaSeq + n, i);
      }
    }
  }

  /** One refresh of a playlist whose end has not moved back. */
  lemma RefreshStep(resolve: Resolver, uriOf: int -> string, m: Memory, r: Refresh)
    requires m.haveLast ==> m.lastSeq < EndOf(r)
    ensures var w := Play(resolve, m, r);
            var from := if m.haveLast && m.lastSeq >= InfoOf(r).mediaSeq then m.lastSeq + 1
                        else if w.done == [] then InfoOf(r).mediaSeq else w.done[0].number;
            && Consecutive(from, w.done) && from >= InfoOf(r).mediaSeq
            && (w.done == [] ==> w.mem.haveLast == m.haveLast && w.mem.lastSeq == m.lastSeq && w.mem.lastUri == m.lastUri)
            && (w.done != [] ==> w.mem.haveLast && w.mem.lastSeq == w.done[|w.done| - 1].number < EndOf(r)
                                 && w.mem.lastUri == Clip(w.done[|w.done| - 1].uri))
            && (m.haveLast && w.done != [] && InfoOf(r).mediaSeq > m.lastSeq ==> from == InfoOf(r).mediaSeq)
            && (Names(uriOf, InfoOf(r).mediaSeq, UrisOf(r)) ==> Named(uriOf, w.done))
  {
    hide WalkLines, JoinIndex, Analysis, Lines, Uris, Achieved, Plan, Passed, Consecutive, Named, Names, Clip;
    var info, w := InfoOf(r), Play(resolve, m, r);
    assert AfterRestart(m, info) == m;
    var first := JoinIndex(m, info, r.big);
    WalkAchieves(resolve, info, first, StartWalk(m, r.script), Lines(r.text));
    var plan, n := Plan(m, info, 0, first, UrisOf(r)), Passed(m, info.mediaSeq, 0, first);
    PlanShape(uriOf, m, info, first, UrisOf(r));
    ListedFits(r);
    PrefixShape(uriOf, StartWalk(m, r.script), plan, w, Process(resolve, m, r.big, info, r.text, r.script).1, info.mediaSeq + n);
    PassedIs(m, info.mediaSeq, first);
    if w.done == [] {
      NoneAre(if m.haveLast && m.lastSeq >= info.mediaSeq then m.lastSeq + 1 else info.mediaSeq, w.done);
    }
  }

  lemma PassedIs(m: Memory, from: int, first: nat)
    ensures m.haveLast ==> Passed(m, from, 0, first) == if m.lastSeq >= from then m.lastSeq + 1 - from else 0
    ensures !m.haveLast ==> Passed(m, from, 0, first) == first
  {
  }

  lemma NoneAre(from: int, ss: seq<Segment>)
    requires ss == []
    ensures Consecutive(from, ss)
  {
  }

  /** A walk that achieves a prefix of consecutive segments. */
  lemma PrefixShape(uriOf: int -> string, w: Walk, plan: seq<Segment>, t: Walk, v: Verdict, from: int)
    requires Achieved(w, plan, t, v) && Consecutive(from, plan) && w.done == []
    ensures Consecutive(from, t.done) && |t.done| <= |plan| && (Named(uriOf, plan) ==> Named(uriOf, t.done))
    ensures t.done == [] ==> t.mem.haveLast == w.mem.haveLast && t.mem.lastSeq == w.mem.lastSeq && t.mem.lastUri == w.mem.lastUri
    ensures
      t.done != [] ==>
        && t.done[0].number == from && t.mem.haveLast
        && t.mem.lastSeq == t.done[|t.done| - 1].number == from + |t.done| - 1
        && t.mem.lastUri == Clip(t.done[|t.done| - 1].uri)
  {
    hide Clip;
    assert t.done == plan[..|t.done|];
  }

  /**
   * Exactly once, in order: while the playlist's end never moves back, completed segment numbers
   * strictly increase over any run, so no segment is completed twice; each is the segment its number names.
   */
  lemma {:induction false} ExactlyOnce(resolve: Resolver, uriOf: int -> string, m: Memory, end: int, rs: seq<Refresh>)
    requires NeverBack(end, rs) && (m.haveLast ==> m.lastSeq < end) && KeepsNumbers(uriOf, rs)
    ensures var done := PlayAll(resolve, m, rs);
            Increasing(done) && Beyond(m, done) && Named(uriOf, done)
    decreases |rs|
  {
    hide Play, EndOf, InfoOf, UrisOf, Names, Increasing, Beyond, Named;
    NothingPlayed(uriOf, m);
    if rs != [] {
      var w := Play(resolve, m, rs[0]);
      assert rs[0] in rs;
      assert KeepsNumbers(uriOf, rs[1..]) by {
        assert forall r :: r in rs[1..] ==> r in rs;
      }
      RefreshStep(resolve, uriOf, m, rs[0]);
      ExactlyOnce(resolve, uriOf, w.mem, EndOf(rs[0]), rs[1..]);
      var from := if m.haveLast && m.lastSeq >= InfoOf(rs[0]).mediaSeq then m.lastSeq + 1
                  else if w.done == [] then InfoOf(rs[0]).mediaSeq else w.done[0].number;
      PlaysOn(uriOf, from, m, w.done, w.mem, PlayAll(resolve, w.mem, rs[1..]));
    }
  }

  /** Numbers strictly increase: nothing is played twice or out of order. */
  ghost predicate Increasing(ss: seq<Segment>) {
    forall i, j :: 0 <= i < j < |ss| ==> ss[i].number < ss[j].number
  }

  /** Nothing the player has already played comes again. */
  ghost predicate Beyond(m: Memory, ss: seq<Segment>) {
    m.haveLast ==> forall i :: 0 <= i < |ss| ==> m.lastSeq < ss[i].number
  }

  lemma NothingPlayed(uriOf: int -> string, m: Memory)
    ensures Increasing([]) && Beyond(m, []) && Named(uriOf, [])
  {
  }

  lemma PlaysOn(uriOf: int -> string, from: int, m: Memory, a: seq<Segment>, mem: Memory, b: seq<Segment>)
    requires Consecutive(from, a) && (m.haveLast ==> from > m.lastSeq)
    requires a == [] ==> mem.haveLast == m.haveLast && mem.lastSeq == m.lastSeq
    requires a != [] ==> mem.haveLast && mem.lastSeq == a[|a| - 1].number
    requires Named(uriOf, a) && Increasing(b) && Beyond(mem, b) && Named(uriOf, b)
    ensures Increasing(a + b) && Beyond(m, a + b) && Named(uriOf, a + b)
  {
  }

  lemma Joined(from: int, a: seq<Segment>, b: seq<Segment>)
    requires Consecutive(from, a) && Consecutive(from + |a|, b)
    ensures Consecutive(from, a + b)
  {
  }

  /** No gap: if moreover the player stays within the playlist's window, no segment is left out between two others. */
  lemma {:induction false} NoGap(resolve: Resolver, m: Memory, end: int, rs: seq<Refresh>)
    requires NeverBack(end, rs) && (m.haveLast ==> m.lastSeq < end) && InWindow(resolve, m, rs)
    ensures var done := PlayAll(resolve, m, rs);
            && (done != [] ==> Consecutive(done[0].number, done))
            && (m.haveLast && done != [] ==> done[0].number == m.lastSeq + 1)
    decreases |rs|
  {
    if rs != [] {
      hide Play, EndOf, InfoOf, UrisOf, Consecutive;
      var w := Play(resolve, m, rs[0]);
      var rest := PlayAll(resolve, w.mem, rs[1..]);
      RefreshStep(resolve, _ => "", m, rs[0]);
      NoGap(resolve, w.mem, EndOf(rs[0]), rs[1..]);
      if w.done == [] {
        assert [] + rest == rest;
      } else {
        FirstAndLast(w.done);
        if rest == [] {
          assert w.done + [] == w.done;
        } else {
          Joined(w.done[0].number, w.done, rest);
        }
      }
    }
  }

  lemma FirstAndLast(ss: seq<Segment>)
    requires ss != []
    ensures forall from :: Consecutive(from, ss) ==> ss[0].number == from && ss[|ss| - 1].number == from + |ss| - 1
  {
  }

  /** Nothing twice: a playlist that lists nothing behind the last segment completed requests no segment at all. */
  lemma NothingNew(resolve: Resolver, m: Memory, r: Refresh)
    requires m.haveLast && InfoOf(r).mediaSeq + |UrisOf(r)| <= m.lastSeq + 1 && m.lastSeq < EndOf(r)
    ensures var (w, v) := Process(resolve, m, r.big, InfoOf(r), r.text, r.script);
            v == Going && w.done == [] && w.reqs == [] && w.script == r.script
            && w.mem == m.(mapUrl := w.mem.mapUrl)
  {
    hide WalkLines, JoinIndex, Analysis, Lines, Uris;
    assert AfterRestart(m, InfoOf(r)) == m;
    NoneWanted(resolve, InfoOf(r), JoinIndex(m, InfoOf(r), r.big), StartWalk(m, r.script), Lines(r.text));
  }

  lemma {:induction false} NoneWanted(resolve: Resolver, info: Info, first: nat, w: Walk, lines: seq<string>)
    requires w.mem.haveLast && info.mediaSeq + w.idx + |Uris(w.pending, lines)| <= w.mem.lastSeq + 1
    ensures var (t, v) := WalkLines(resolve, info, first, w, lines);
            && v == Going && t.done == w.done && t.reqs == w.reqs && t.script == w.script
            && t.mem == w.mem.(mapUrl := t.mem.mapUrl)
    decreases |lines|
  {
    hide FetchSegment, WalkTag, IsTag;
    if lines != [] {
      var w1 := WalkLine(resolve, info, first, w, lines[0]).0;
      if IsTag(lines[0]) {
        TagKeeps(resolve, w, lines[0]);
      }
      NoneWanted(resolve, info, first, w1, lines[1..]);
    }
  }
}
