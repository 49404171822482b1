/** The HLS player of the firmware: one manifest buffer, rewritten and split in place, and its control loop. */
module HlsPlayer {
  import opened Bytes
  import opened Text
  import opened Playlist
  import opened Schedule
  import opened Tail
  import opened PlayerSpec

  class Hls {
    const urls: UrlResolver
    const mbuf: array<char>
    var mlen: nat
    // memory across playlists
    var haveLast: bool
    var lastSeq: int
    var lastUri: string
    var mapUrl: string
    var lastMap: string
    var target: nat
    var big: bool
    var errors: nat
    var mediaUrl: string
    // the walk over the current playlist
    var script: seq<Attempt>
    var fetched: nat
    ghost var reqs: seq<Request>
    ghost var done: seq<Segment>

    ghost predicate Shaped() { mbuf.Length == MANIFEST_MAX }

    ghost function Mem(): Memory
      reads this`haveLast, this`lastSeq, this`lastUri, this`mapUrl, this`lastMap
    {
      Memory(haveLast, lastSeq, lastUri, mapUrl, lastMap)
    }

    ghost function PlayerView(): Player
      reads this`haveLast, this`lastSeq, this`lastUri, this`mapUrl, this`lastMap, this`target, this`big, this`errors
      reads this`mediaUrl
    {
      Player(Mem(), target, big, errors, mediaUrl)
    }

    /** Maps and segments are resolved against the URL of the current playlist. */
    ghost function Base(): Resolver
      reads this`mediaUrl
    {
      Against(urls, mediaUrl)
    }

    /** The walk, given the local variables of the loop. */
    ghost function WalkView(idx: nat, pending: bool, disc: bool): Walk
      reads this`haveLast, this`lastSeq, this`lastUri, this`mapUrl, this`lastMap, this`script, this`reqs, this`done
    {
      Walk(idx, pending, disc, Mem(), script, reqs, done)
    }

    constructor (u: UrlResolver, url: string)
      ensures Shaped() && fresh(mbuf) && PlayerView() == Start(url) && urls == u
    {
      urls, mediaUrl := u, url;
      mbuf := new char[MANIFEST_MAX];
      mlen, haveLast, lastSeq, lastUri, mapUrl, lastMap := 0, false, 0, "", "", "";
      target, big, errors, script, fetched, reqs, done := 0, false, 0, [], 0, [], [];
    }

    // ---- process_segments

    /** The tag branch of process_segments. */
    method HandleTag(line: string, ghost idx: nat, pending: bool, disc: bool) returns (pending': bool, disc': bool)
      modifies this`mapUrl
      ensures WalkView(idx, pending', disc') == WalkTag(Base(), old(WalkView(idx, pending, disc)), line)
    {
      pending', disc' := pending, disc;
      if StartsWith(line, MAP) {
        var rel := AttrUri(line);
        if rel.Some? {
          mapUrl := urls(mediaUrl, rel.value);
        }
      } else if StartsWith(line, DISCONTINUITY) && !(|line| > |DISCONTINUITY| && line[|DISCONTINUITY|] == '-') {
        disc' := true;
      } else if StartsWith(line, EXTINF) {
        pending' := true;
      }
    }

    /** Fetches the init segment when the map in force is not the last one fetched. */
    method EnsureInit(ghost idx: nat, disc: bool, a: Attempt) returns (v: Verdict)
      modifies this`lastMap, this`reqs
      ensures (WalkView(idx, false, false), v) == FetchInit(old(WalkView(idx, false, false)), disc, a)
    {
      if disc && haveLast {
        lastMap := "";
      }
      if mapUrl != "" && mapUrl != lastMap {
        reqs := reqs + [Init(mapUrl, a.init)];
        if a.init == Stop {
          return Stopped;
        }
        if a.init == Bad {
          return Error;
        }
        lastMap := mapUrl;
      }
      return Going;
    }

    /** Downloads the media of a wanted segment. */
    method LoadMedia(ghost idx: nat, seqNo: int, line: string, a: Attempt) returns (v: Verdict)
      modifies this`haveLast, this`lastSeq, this`lastUri, this`fetched, this`reqs, this`done
      ensures (WalkView(idx, false, false), v) == FetchMedia(old(WalkView(idx, false, false)), seqNo, line, a)
      ensures fetched == old(fetched) + |done| - |old(done)|
    {
      if !a.url {
        return Error;
      }
      reqs := reqs + [Media(seqNo, line, mapUrl)];
      if a.media == Stop {
        return Stopped;
      }
      if a.media == Bad {
        return Error;
      }
      lastSeq := seqNo;
      haveLast := true;
      lastUri := Clip(line);
      fetched := fetched + 1;
      done := done + [Segment(seqNo, line)];
      return Going;
    }

    /** Fetches a wanted segment. */
    method FetchWanted(ghost idx: nat, seqNo: int, line: string, disc: bool) returns (v: Verdict)
      modifies this`haveLast, this`lastSeq, this`lastUri, this`lastMap, this`script, this`fetched, this`reqs, this`done
      ensures (WalkView(idx, false, false), v) == FetchSegment(old(WalkView(idx, false, false)), disc, seqNo, line)
      ensures fetched == old(fetched) + |done| - |old(done)|
    {
      hide FetchInit, FetchMedia;
      if script == [] || script[0].stop {
        return Stopped;
      }
      var a := script[0];
      script := script[1..];
      if !a.demux {
        return Error;
      }
      v := EnsureInit(idx, disc, a);
      if v == Going {
        v := LoadMedia(idx, seqNo, line, a);
      }
    }

    /** One turn of process_segments' loop. */
    method HandleLine(info: Info, first: nat, line: string, idx: nat, pending: bool, disc: bool)
      returns (v: Verdict, idx': nat, pending': bool, disc': bool)
      modifies this`haveLast, this`lastSeq, this`lastUri, this`mapUrl, this`lastMap
      modifies this`script, this`fetched, this`reqs, this`done
      ensures (WalkView(idx', pending', disc'), v) == WalkLine(Base(), info, first, old(WalkView(idx, pending, disc)), line)
      ensures fetched == old(fetched) + |done| - |old(done)|
    {
      hide FetchSegment, WalkTag;
      v, idx', pending', disc' := Going, idx, pending, disc;
      if IsTag(line) {
        pending', disc' := HandleTag(line, idx, pending, disc);
        TagKeeps(Base(), old(WalkView(idx, pending, disc)), line);
        return;
      }
      if line == "" || !pending {
        return;
      }
      var seqNo := info.mediaSeq + idx;
      var want := if haveLast then seqNo > lastSeq else idx >= first;
      pending', disc', idx' := false, false, idx + 1;
      if want {
        FetchKeeps(WalkView(idx', false, false), disc, seqNo, line);
        v := FetchWanted(idx', seqNo, line, disc);
      }
    }

    /** process_segments on the playlist in the manifest buffer. */
    method ProcessSegments(info: Info, attempts: seq<Attempt>) returns (v: Verdict)
      requires Shaped() && |CStr(mbuf[..], 0)| < MANIFEST_MAX
      modifies this, mbuf
      ensures (big, target, errors, mediaUrl) == old((big, target, errors, mediaUrl))
      ensures var (w, v') := Process(Base(), old(Mem()), big, info, old(CStr(mbuf[..], 0)), attempts);
              v == v' && Mem() == w.mem && reqs == w.reqs && done == w.done && fetched == |done|
    {
      hide CStr, Lines, AfterLine, WalkLine, JoinIndex;
      var first := Begin(info, attempts);
      ghost var rest := CStr(mbuf[..], 0);
      ghost var whole := WalkLines(Base(), info, first, WalkView(0, false, false), Lines(rest));
      var idx: nat, pending, disc, p: nat := 0, false, false, 0;
      v := Going;
      while true
        invariant p + |rest| < MANIFEST_MAX && rest == CStr(mbuf[..], p) && fetched == |done| && v == Going
        invariant (big, target, errors, mediaUrl) == old((big, target, errors, mediaUrl))
        invariant whole == WalkLines(Base(), info, first, WalkView(idx, pending, disc), Lines(rest))
        decreases |rest|
      {
        var more, next := NextLine(mbuf, p);
        NextOfLines(rest);
        if !more {
          break;
        }
        var line := CStr(mbuf[..], p);
        p := next;
        rest := AfterLine(rest);
        v, idx, pending, disc := HandleLine(info, first, line, idx, pending, disc);
        if v != Going {
          return;
        }
      }
    }

    /** The first lines of process_segments. */
    method Begin(info: Info, attempts: seq<Attempt>) returns (first: nat)
      modifies this`haveLast, this`script, this`fetched, this`reqs, this`done
      ensures var m := AfterRestart(old(Mem()), info);
              WalkView(0, false, false) == StartWalk(m, attempts) && first == JoinIndex(m, info, big) && fetched == 0
    {
      hide JoinIndex;
      fetched, reqs, done, script := 0, [], [], attempts;
      if haveLast && lastSeq >= info.mediaSeq + info.nseg {
        haveLast := false; // the numbers start over
      }
      first := JoinAt(info);
    }

    /** Where to join a playlist. */
    method JoinAt(info: Info) returns (first: nat)
      ensures first == JoinIndex(Mem(), info, big)
    {
      first := 0;
      if !haveLast && !info.endlist && info.nseg > 2 {
        first := info.nseg - 2;
        if big {
          var back := if info.target > 0 then (45 + info.target - 1) / info.target else 8;
          if back < 2 {
            back := 2;
          }
          first := if info.nseg > back then info.nseg - back else 0;
        }
      }
    }

    // ---- splice_tail

    /** The line from `p` to `e` without a carriage return at its end, as splice_tail compares it. */
    method LineIs(p: nat, e: nat) returns (same: bool)
      requires Shaped() && p <= e < MANIFEST_MAX
      ensures same == (DropCr(mbuf[p..e]) == lastUri)
    {
      var l := e;
      if l > p && mbuf[l - 1] == '\r' {
        l := l - 1;
      }
      LineContent(mbuf[..], p, e, l);
      same := mbuf[p..l] == lastUri;
    }

    /** One turn of the search in splice_tail: where the next line starts, and the hit so far. */
    method SearchLine(p: nat, hit: Option<nat>, ghost all: string) returns (next: nat, hit': Option<nat>)
      requires Shaped() && StringAt(mbuf[..], p) && mbuf[p] != NUL && HitAt(mbuf[..], hit)
      requires Narrowed(all, CStr(mbuf[..], p), TextAt(mbuf[..], hit), lastUri)
      ensures StringAt(mbuf[..], next) && HitAt(mbuf[..], hit')
      ensures next > p
      ensures Narrowed(all, CStr(mbuf[..], next), TextAt(mbuf[..], hit'), lastUri)
    {
      hide CStr, LineEnd, DropCr, AfterLine, AfterLast, Narrowed;
      ghost var b := mbuf[..];
      ghost var s := CStr(b, p);
      NotEmpty(b, p);
      var e := FindLineEnd(mbuf, p);
      ContentOf(b, p, e);
      var same := LineIs(p, e);
      next := if mbuf[e] == '\n' then e + 1 else e;
      NextString(b, p, e, next);
      LineStops(b, p, e);
      NarrowedNext(all, s, TextAt(b, hit), lastUri);
      hit' := if same then Some(next) else hit;
    }

    /** The search of splice_tail: the position behind the last line, from `start` on, that equals the anchor. */
    method FindAnchor(start: nat) returns (hit: Option<nat>)
      requires Shaped() && start + |CStr(mbuf[..], start)| < MANIFEST_MAX
      ensures var found := AfterLast(CStr(mbuf[..], start), lastUri);
              match hit
              case None => found == None
              case Some(h) => h + |CStr(mbuf[..], h)| < MANIFEST_MAX && found == Some(CStr(mbuf[..], h))
    {
      hide CStr, AfterLast, Narrowed;
      hit := None;
      var p := start;
      ghost var all := CStr(mbuf[..], start);
      NarrowedFirst(all, lastUri);
      while mbuf[p] != NUL
        invariant StringAt(mbuf[..], p) && HitAt(mbuf[..], hit)
        invariant Narrowed(all, CStr(mbuf[..], p), TextAt(mbuf[..], hit), lastUri)
        decreases MANIFEST_MAX - p
      {
        p, hit := SearchLine(p, hit, all);
      }
      NoAnchor(mbuf[..], p);
      NarrowedLast(all, CStr(mbuf[..], p), TextAt(mbuf[..], hit), lastUri);
    }

    /** splice_tail: turns a tail into a minimal playlist with the segments behind the anchor, in place. */
    method SpliceTail() returns (ok: bool)
      requires Shaped() && |CStr(mbuf[..], 0)| < MANIFEST_MAX
      modifies this`mlen, mbuf
      ensures match Spliced(old(CStr(mbuf[..], 0)), lastUri, target, lastSeq)
              case None => !ok
              case Some(text) => ok && Holds(text)
    {
      hide CStr, LineEnd, AfterLast, Header;
      ghost var b := mbuf[..];
      var e := FindLineEnd(mbuf, 0);
      ghost var s := CStr(b, 0);
      EndOfLine(b, e);
      if mbuf[e] != '\n' {
        return false;
      }
      NextString(b, 0, e, e + 1);
      var hit := FindAnchor(e + 1);
      if hit.None? {
        return false;
      }
      var head, rest := Header(target, lastSeq), CStr(mbuf[..], hit.value);
      var hl := |head|;
      if hl + |rest| >= MANIFEST_MAX {
        return false;
      }
      HeaderIsText(target, lastSeq);
      StringIsText(b, hit.value);
      Rewrite(head, rest);
      ok := true;
    }

    /** The memmove and memcpy at the end of splice_tail. */
    method Rewrite(head: string, rest: string)
      requires Shaped() && |head| + |rest| < MANIFEST_MAX && NUL !in head && NUL !in rest
      modifies this`mlen, mbuf
      ensures Holds(head + rest)
    {
      hide CStr;
      var hl := |head|;
      Copy(mbuf, hl, rest + [NUL]);
      ghost var moved := mbuf[hl..];
      assert moved[..|rest| + 1] == mbuf[hl..hl + |rest| + 1] == rest + [NUL];
      Copy(mbuf, 0, head);
      assert mbuf[hl..] == moved;
      mlen := hl + |rest|;
      assert mbuf[..mlen] == mbuf[0..hl] + mbuf[hl..][..|rest|];
      assert mbuf[hl..][..|rest|] == moved[..|rest| + 1][..|rest|] == rest;
      assert mbuf[mlen] == mbuf[hl..][|rest|] == moved[..|rest| + 1][|rest|] == NUL;
      CStrIs(mbuf[..], 0, head + rest);
    }

    /** The manifest buffer holds this text, and its length is known. */
    ghost predicate Holds(text: string)
      reads this`mlen, mbuf
    {
      Shaped() && mlen < MANIFEST_MAX && mbuf[mlen] == NUL && CStr(mbuf[..], 0) == text && |text| < MANIFEST_MAX
    }

    // ---- hls_play

    /** A manifest download into the buffer. */
    method Store(d: Download)
      requires Shaped() && Fits(d)
      modifies this`mlen, mbuf
      ensures Holds(Seen(d.body)) && mlen == |d.body|
    {
      hide CStr;
      Copy(mbuf, 0, d.body);
      mlen := |d.body|;
      mbuf[mlen] := NUL;
      assert mbuf[..mlen + 1] == d.body + [NUL];
      PrefixDecides(mbuf[..], d.body);
    }

    /** The text is analyzed in a copy, which is split in place. */
    method AnalyzeCopy() returns (info: Info)
      requires Shaped() && mlen < MANIFEST_MAX && mbuf[mlen] == NUL
      ensures info == Analysis(CStr(mbuf[..], 0))
    {
      hide CStr;
      var copy := new char[mlen + 1];
      Copy(copy, 0, mbuf[..mlen + 1]);
      assert copy[..] == mbuf[..mlen] + [NUL] == mbuf[..mlen + 1];
      PrefixDecides(mbuf[..], mbuf[..mlen]);
      PrefixDecides(copy[..], mbuf[..mlen]);
      info := Analyze(copy);
    }

    /** The manifest of a round, from the tail if that can be spliced. */
    method GetManifest(r: Round) returns (rc: Outcome)
      requires Shaped() && Fits(r.tail) && Fits(r.full)
      modifies this`mlen, this`big, mbuf
      ensures var m := FetchManifest(old(PlayerView()), r);
              && rc == m.rc
              && (rc != Stop ==> big == m.big && Holds(m.text))
              && (rc == Stop ==> big == old(big))
    {
      hide CStr, Spliced;
      if big && haveLast && lastUri != "" {
        if r.tail.rc == Stop {
          return Stop;
        }
        Store(r.tail);
        if r.tail.rc == Good {
          var ok := SpliceTail();
          if ok {
            return Good;
          }
        }
      }
      // no tail wanted, or the anchor segment is not in the tail: the whole playlist
      if r.full.rc == Stop {
        return Stop;
      }
      Store(r.full);
      big := mlen > TAIL_MIN;
      rc := r.full.rc;
    }

    /** What hls_play does with a media playlist. */
    method PlayListed(info: Info, attempts: seq<Attempt>) returns (result: Option<Result>, ghost got: seq<Segment>, ghost asked: seq<Request>)
      requires Shaped() && |CStr(mbuf[..], 0)| < MANIFEST_MAX
      modifies this, mbuf
      ensures
        Turn(PlayerView(), got, asked, result) == PlayMedia(urls, old(PlayerView()), info, old(CStr(mbuf[..], 0)), attempts)
    {
      hide CStr, Process;
      var v := ProcessSegments(info, attempts);
      got, asked := done, reqs;
      if v == Stopped {
        return Some(StoppedByUser), got, asked;
      }
      if v == Error {
        errors := errors + 1;
        return if errors >= 4 then Some(Failed) else None, got, asked;
      }
      errors := 0;
      return if info.endlist && fetched == 0 then Some(Ended) else None, got, asked;
    }

    /** What hls_play does with a manifest it has recognized. */
    method PlayManifest(r: Round) returns (result: Option<Result>, ghost got: seq<Segment>, ghost asked: seq<Request>)
      requires Shaped() && |CStr(mbuf[..], 0)| < MANIFEST_MAX && mlen < MANIFEST_MAX && mbuf[mlen] == NUL
      modifies this, mbuf
      ensures Turn(PlayerView(), got, asked, result) == PlayText(urls, old(PlayerView()), r, old(CStr(mbuf[..], 0)))
    {
      hide CStr, PlayMedia, Analysis;
      got, asked := [], [];
      var info := AnalyzeCopy();
      if info.target > 0 {
        target := info.target;
      }
      if info.master {
        if !r.variant {
          return Some(Failed), got, asked;
        }
        mediaUrl := urls(mediaUrl, info.variant);
        errors := errors + 1;
        return if errors > 4 then Some(Failed) else None, got, asked;
      }
      if info.unsupported {
        return Some(Failed), got, asked;
      }
      result, got, asked := PlayListed(info, r.script);
    }

    /** One turn of hls_play's loop. */
    method PlayTurn(r: Round) returns (result: Option<Result>, ghost got: seq<Segment>, ghost asked: seq<Request>)
      requires Shaped() && Fits(r.tail) && Fits(r.full)
      modifies this, mbuf
      ensures Turn(PlayerView(), got, asked, result) == PlayRound(urls, old(PlayerView()), r)
    {
      hide CStr, FetchManifest, PlayText, IsManifest;
      got, asked := [], [];
      if r.stop {
        return Some(StoppedByUser), got, asked;
      }
      var rc := GetManifest(r);
      if rc == Stop {
        return Some(StoppedByUser), got, asked;
      }
      if rc == Bad || !IsManifest(CStr(mbuf[..], 0)) {
        errors := errors + 1;
        return if errors >= 6 then Some(Failed) else None, got, asked;
      }
      if !r.memory {
        return Some(Failed), got, asked;
      }
      result, got, asked := PlayManifest(r);
    }

    /** hls_play over the rounds the environment provides. */
    method Play(rounds: seq<Round>) returns (result: Option<Result>, ghost got: seq<Segment>, ghost asked: seq<Request>)
      requires Shaped() && forall r :: r in rounds ==> Fits(r.tail) && Fits(r.full)
      modifies this, mbuf
      ensures Turn(PlayerView(), got, asked, result) == PlayRounds(urls, old(PlayerView()), rounds)
    {
      hide PlayRound;
      result, got, asked := None, [], [];
      var i := 0;
      ghost var p := PlayerView();
      assert rounds[0..] == rounds;
      ghost var rest := PlayRounds(urls, p, rounds);
      assert got + rest.done == rest.done && asked + rest.reqs == rest.reqs;
      while i < |rounds|
        invariant 0 <= i <= |rounds| && result == None
        invariant var t := PlayRounds(urls, PlayerView(), rounds[i..]);
                  PlayRounds(urls, p, rounds) == t.(done := got + t.done, reqs := asked + t.reqs)
      {
        assert rounds[i] in rounds && rounds[i..][1..] == rounds[i + 1..];
        ghost var now, sent, before, asked' := [], [], got, asked;
        result, now, sent := PlayTurn(rounds[i]);
        got, asked := got + now, asked + sent;
        if result.Some? {
          return;
        }
        ghost var later := PlayRounds(urls, PlayerView(), rounds[i + 1..]);
        assert before + (now + later.done) == got + later.done;
        assert asked' + (sent + later.reqs) == asked + later.reqs;
        i := i + 1;
      }
      assert rounds[i..] == [] && got + [] == got && asked + [] == asked;
    }
  }

  lemma NextOfLines(s: string)
    ensures if s == "" then Lines(s) == []
            else
              && |AfterLine(s)| < |s| && Lines(s) != []
              && Lines(s)[0] == Trim(s[..LineEnd(s)]) && Lines(s)[1..] == Lines(AfterLine(s))
  {
  }

  /** A string of the buffer, behind which there is a NUL. */
  ghost predicate StringAt(b: seq<char>, p: nat) { p + |CStr(b, p)| < |b| }

  ghost predicate HitAt(b: seq<char>, hit: Option<nat>) { hit.Some? ==> StringAt(b, hit.value) }

  ghost function TextAt(b: seq<char>, hit: Option<nat>): Option<string> {
    match hit case None => None case Some(h) => Some(CStr(b, h))
  }

  lemma LineStops(b: seq<char>, p: nat, e: nat)
    requires p + |CStr(b, p)| < |b| && e == p + LineEnd(CStr(b, p))
    ensures e < |b| && (b[e] == '\n' || b[e] == NUL)
  {
    hide CStr, LineEnd;
  }

  /** The search has come down to `s`: what it has found is `seen`, unless a later line equals the anchor. */
  ghost predicate Narrowed(all: string, s: string, seen: Option<string>, uri: string) {
    AfterLast(all, uri) == if AfterLast(s, uri).Some? then AfterLast(s, uri) else seen
  }

  lemma NarrowedFirst(all: string, uri: string)
    ensures Narrowed(all, all, None, uri)
  {
  }

  lemma NarrowedNext(all: string, s: string, seen: Option<string>, uri: string)
    requires Narrowed(all, s, seen, uri) && s != ""
    ensures
      var rest := AfterLine(s);
      Narrowed(all, rest, if DropCr(s[..LineEnd(s)]) == uri then Some(rest) else seen, uri)
  {
    hide AfterLine, LineEnd, DropCr;
  }

  lemma NarrowedLast(all: string, s: string, seen: Option<string>, uri: string)
    requires Narrowed(all, s, seen, uri) && AfterLast(s, uri) == None
    ensures AfterLast(all, uri) == seen
  {
  }

  lemma NoAnchor(b: seq<char>, p: nat)
    requires p < |b| && b[p] == NUL
    ensures CStr(b, p) == "" && forall uri :: AfterLast(CStr(b, p), uri) == None
  {
  }

  lemma ContentOf(b: seq<char>, p: nat, e: nat)
    requires p + |CStr(b, p)| < |b| && e == p + LineEnd(CStr(b, p))
    ensures e < |b| && b[p..e] == CStr(b, p)[..e - p]
  {
  }

  lemma LineContent(b: seq<char>, p: nat, e: nat, l: nat)
    requires p <= e < |b| && l == (if e > p && b[e - 1] == '\r' then e - 1 else e)
    ensures b[p..l] == DropCr(b[p..e])
  {
    var line := b[p..e];
    if e > p {
      assert line[|line| - 1] == b[e - 1];
      assert line[..|line| - 1] == b[p..e - 1];
    }
  }

  /** The string behind the line that ends at `e`. */
  lemma NextString(b: seq<char>, p: nat, e: nat, next: nat)
    requires p + |CStr(b, p)| < |b| && CStr(b, p) != "" && e == p + LineEnd(CStr(b, p))
    requires next == if b[e] == '\n' then e + 1 else e
    ensures next + |CStr(b, next)| < |b| && CStr(b, next) == AfterLine(CStr(b, p))
    ensures b[e] == '\n' ==> next > p
  {
    hide CStr, LineEnd;
    SuffixAt(b, p, e - p);
    if b[e] == '\n' {
      SuffixAt(b, p, e + 1 - p);
    }
  }

  lemma EndOfLine(b: seq<char>, e: nat)
    requires |CStr(b, 0)| < |b| && e == LineEnd(CStr(b, 0))
    ensures e < |b| && (b[e] == '\n' <==> e < |CStr(b, 0)|)
    ensures e < |CStr(b, 0)| ==> CStr(b, 0) != ""
  {
  }

  lemma StringIsText(b: seq<char>, p: nat)
    ensures NUL !in CStr(b, p)
  {
  }

  /** What stands before a NUL decides what is seen of a buffer. */
  lemma {:induction false} PrefixDecides(b: seq<char>, body: string)
    requires |body| < |b| && b[..|body| + 1] == body + [NUL]
    ensures CStr(b, 0) == Seen(body) && |Seen(body)| <= |body|
  {
    SamePrefix(b, body + [NUL], 0, |body|);
  }

  lemma {:induction false} SamePrefix(a: seq<char>, b: seq<char>, p: nat, n: nat)
    requires p <= n < |a| && n < |b| && b[n] == NUL && forall i :: p <= i <= n ==> a[i] == b[i]
    ensures CStr(a, p) == CStr(b, p) && p + |CStr(b, p)| <= n
    decreases n - p
  {
    if p < n {
      SamePrefix(a, b, p + 1, n);
    }
  }
}
