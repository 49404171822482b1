/** The fragmented MP4 demuxer of the firmware: fixed buffers, updated in place by whole network reads. */
module Fmp4 {
  import opened Bytes
  import opened Machine
  import opened Adts
  import opened Fmp4Boxes
  import opened Fmp4Spec
  import opened Moov

  datatype Mode = HdrMode | CollectMode | SkipMode | MdatMode

  class Fmp4Demuxer {
    /** The bytes behind a box that a short track header makes the reader look at. */
    const past: Past
    const readMoov: MoovReader := Reader(past)
    // what the last accepted moov announced
    var haveCfg: bool
    var format: AudioFormat
    var track: nat
    var trexSize: nat
    // where the reader stands between boxes or inside one
    var mode: Mode
    const hdr: array<byte>
    var hdrHave: nat
    var kind: nat
    var remain: Remain
    var segPos: nat
    var boxStart: nat
    const box: array<byte>
    var boxHave: nat
    // the sample table of a fragment and the sample being filled
    const sizes: array<nat>
    var nsamp: nat
    var idx: nat
    var fill: nat
    var dataStart: nat
    var dataStartSet: bool
    const frame: array<byte>
    /** The calls made to the sink so far. */
    ghost var sunk: seq<seq<byte>>

    ghost predicate Shaped()
    {
      && hdr.Length == 16 && box.Length == MAX_META_BOX
      && sizes.Length == MAX_SAMPLES && frame.Length == HEADER_SIZE + MAX_FRAME
      && hdr != box && hdr != frame && box != frame
    }

    ghost predicate SamplesValid()
      reads this`nsamp, this`idx, this`fill, sizes
    {
      && Shaped()
      && nsamp <= MAX_SAMPLES && idx <= nsamp
      && (idx == nsamp ==> fill == 0)
      && (idx < nsamp && fill > 0 ==> fill < sizes[idx])
    }

    ghost predicate BoxValid()
      reads this`mode, this`hdrHave, this`segPos, this`remain, this`boxHave, this`dataStartSet, hdr
    {
      && Shaped()
      && (mode == HdrMode ==> hdrHave < 16 && hdrHave <= segPos && NeedsMore(hdr[..hdrHave]))
      && (mode != HdrMode ==> hdrHave == 0 && remain > 0)
      && boxHave <= MAX_META_BOX && (mode == CollectMode ==> boxHave + remain <= MAX_META_BOX)
      && (mode == MdatMode ==> dataStartSet)
    }

    ghost predicate Valid()
      reads this, hdr, sizes
    {
      SamplesValid() && BoxValid()
    }

    ghost function Cfg(): Config
      reads this`haveCfg, this`format, this`track, this`trexSize
    {
      Config(if haveCfg then Some(format) else None, track, trexSize)
    }

    ghost function CurrentPlan(): Plan
      reads this`nsamp, this`dataStart, this`dataStartSet, sizes
      requires Shaped() && nsamp <= MAX_SAMPLES
    {
      Plan(sizes[..nsamp], if dataStartSet then Some(dataStart) else None)
    }

    ghost function Cur(): Cursor
      reads this`nsamp, this`idx, this`fill, sizes, frame
      requires Shaped() && nsamp <= MAX_SAMPLES
    {
      Cursor(idx, fill,
             if idx < nsamp && 0 < fill < sizes[idx] <= MAX_FRAME then frame[HEADER_SIZE..][..fill] else [])
    }

    ghost function CurrentPhase(): Phase
      reads this`mode, this`hdrHave, this`kind, this`remain, this`boxStart, this`boxHave, hdr, box
      requires Shaped() && hdrHave <= 16 && boxHave <= MAX_META_BOX
    {
      match mode
      case HdrMode => Header(hdr[..hdrHave])
      case CollectMode => Collect(kind, remain, boxStart, box[..boxHave])
      case SkipMode => Skip(remain)
      case MdatMode => Media(remain)
    }

    ghost function View(): State
      reads this, hdr, box, sizes, frame
      requires Valid()
    {
      State(Cfg(), CurrentPhase(), segPos, CurrentPlan(), Cur())
    }

    constructor (past: Past)
      ensures Valid() && View() == Reset(Config(None, 0, 0)) && sunk == [] && this.past == past
      ensures fresh(hdr) && fresh(box) && fresh(sizes) && fresh(frame)
    {
      this.past := past;
      haveCfg, track, trexSize := false, 0, 0;
      hdr := new byte[16](_ => 0);
      box := new byte[MAX_META_BOX];
      sizes := new nat[MAX_SAMPLES];
      frame := new byte[HEADER_SIZE + MAX_FRAME];
      mode, hdrHave, boxHave, segPos := HdrMode, 0, 0, 0;
      nsamp, idx, fill, dataStartSet := 0, 0, 0, false;
      sunk := [];
    }

    lemma ResetFields()
      requires Shaped() && boxHave <= MAX_META_BOX && mode == HdrMode && hdrHave == segPos == 0
      requires nsamp == idx == fill == 0 && !dataStartSet
      ensures Valid() && View() == Reset(Cfg())
    {
    }

    /** fmp4_reset, which also is fmp4_segment_end: everything but the configuration is forgotten. */
    method SegmentEnd()
      requires Shaped() && boxHave <= MAX_META_BOX
      modifies this
      ensures Valid() && View() == Reset(Cfg())
      ensures Cfg() == old(Cfg()) && sunk == old(sunk)
    {
      hide Valid, View;
      mode, hdrHave, segPos := HdrMode, 0, 0;
      nsamp, idx, fill := 0, 0, 0;
      dataStartSet := false;
      ResetFields();
    }

    /** Appends bytes of a sample behind the room kept for its ADTS header. */
    method KeepBytes(b: seq<byte>)
      requires Shaped() && fill + |b| <= MAX_FRAME
      modifies frame
      ensures frame[HEADER_SIZE..][..fill + |b|] == old(frame[HEADER_SIZE..][..fill]) + b
    {
      Copy(frame, HEADER_SIZE + fill, b);
      assert frame[HEADER_SIZE..][..fill] == frame[..HEADER_SIZE + fill][HEADER_SIZE..];
      assert old(frame[HEADER_SIZE..][..fill] == frame[..HEADER_SIZE + fill][HEADER_SIZE..]);
      assert frame[HEADER_SIZE..][fill..fill + |b|] == b;
    }

    /** Puts the ADTS header in front of a complete sample and hands it to the sink. */
    method EmitSample(sz: nat)
      requires Shaped() && sz <= MAX_FRAME
      modifies this`sunk, frame
      ensures sunk == old(sunk) + [Frame(format, old(frame[HEADER_SIZE..][..sz]))]
    {
      ghost var kept := frame[HEADER_SIZE..][..sz];
      Copy(frame, 0, AdtsHeader(format, sz));
      assert frame[..sz + HEADER_SIZE] == frame[..HEADER_SIZE] + frame[HEADER_SIZE..][..sz];
      sunk := sunk + [frame[..sz + HEADER_SIZE]];
    }

    /** One turn of mdat_chunk's loop at a sample: keeps `b`, and passes the sample on once it is complete. */
    method TakeSample(b: seq<byte>)
      requires SamplesValid() && idx < nsamp
      requires |b| <= sizes[idx] - fill && (b == [] ==> sizes[idx] == 0)
      modifies this`idx, this`fill, this`sunk, frame
      ensures SamplesValid()
      ensures var sz, kept := sizes[old(idx)], if sizes[old(idx)] <= MAX_FRAME then old(Cur()).kept + b else [];
              && Cur() == (if old(fill) + |b| < sz then Cursor(old(idx), old(fill) + |b|, kept)
                           else Cursor(old(idx) + 1, 0, []))
              && sunk == old(sunk) + if 0 < sz <= MAX_FRAME && old(fill) + |b| == sz then [Frame(format, kept)] else []
    {
      var sz := sizes[idx];
      if sz <= MAX_FRAME {
        KeepBytes(b);
      }
      fill := fill + |b|;
      if fill == sz {
        if 0 < sz <= MAX_FRAME {
          EmitSample(sz);
        }
        idx := idx + 1;
        fill := 0;
      }
    }

    /** One turn of mdat_chunk's loop at segment position `pos`: passes over or keeps `t` bytes. */
    method MediaTurn(rest: seq<byte>, pos: nat) returns (t: nat, ghost made: seq<seq<byte>>)
      requires SamplesValid() && dataStartSet && rest != []
      modifies this`idx, this`fill, this`sunk, frame
      ensures SamplesValid() && t <= |rest| && idx >= old(idx) && (t == 0 ==> idx > old(idx))
      ensures sunk == old(sunk) + made
      ensures var step := Sampler(format, CurrentPlan());
              Continues(Feed(step, Place(old(Cur()), pos), rest), made, Feed(step, Place(Cur(), pos + t), rest[t..]))
    {
      hide Feed, Then;
      ghost var plan, here := CurrentPlan(), Place(Cur(), pos);
      made := [];
      if idx >= nsamp {
        t := |rest|;
        PassOver(format, plan, here, rest[..t]);
      } else if pos < dataStart {
        t := if dataStart - pos > |rest| then |rest| else dataStart - pos;
        PassOver(format, plan, here, rest[..t]);
      } else {
        t := if sizes[idx] - fill > |rest| then |rest| else sizes[idx] - fill;
        if t == 0 {
          PassEmpty(format, plan, here, rest);
        } else {
          InsideSample(format, plan, here, rest[..t]);
          made := Feed(Sampler(format, plan), here, rest[..t]).out;
        }
        TakeSample(rest[..t]);
      }
      TurnContinues(Sampler(format, plan), here, rest, t);
    }

    /** mdat_chunk: cuts samples out of consecutive media bytes. */
    method MdatChunk(d: seq<byte>)
      requires SamplesValid() && dataStartSet
      modifies this`idx, this`fill, this`sunk, frame
      ensures SamplesValid()
      ensures var r := Feed(Sampler(format, CurrentPlan()), Place(old(Cur()), segPos), d);
              r == Run(Place(Cur(), segPos + |d|), r.out, true) && sunk == old(sunk) + r.out
    {
      hide Feed, Then, Sampler, CurrentPlan, Cur;
      var pos, end := segPos, segPos + |d|;
      ghost var log := [];
      ghost var step := Sampler(format, CurrentPlan());
      ghost var whole := Feed(step, Place(Cur(), pos), d);
      assert d[0..] == d && log + whole.out == whole.out;
      while pos < end
        invariant segPos <= pos <= end
        invariant SamplesValid() && step == Sampler(format, CurrentPlan())
        invariant sunk == old(sunk) + log
        invariant Continues(whole, log, Feed(step, Place(Cur(), pos), d[pos - segPos..]))
        decreases end - pos, nsamp - idx
      {
        ghost var here := Place(Cur(), pos);
        var t, made := MediaTurn(d[pos - segPos..], pos);
        assert d[pos - segPos..][t..] == d[pos + t - segPos..];
        ContinuesTwice(whole, log, Feed(step, here, d[pos - segPos..]), made,
                       Feed(step, Place(Cur(), pos + t), d[pos + t - segPos..]));
        log := log + made;
        pos := pos + t;
      }
      assert d[pos - segPos..] == [];
      FeedNone(step, Place(Cur(), pos));
    }

    /** One entry of a trun. */
    static method ReadEntry(p: seq<byte>, at: nat, flags: nat, size: nat) returns (r: Option<(nat, nat)>)
      ensures r == RunEntry(p, at, flags, size)
    {
      var sz, o := size, at;
      if Has(flags, 0x100) {
        o := o + 4;
      }
      if Has(flags, 0x200) {
        if o + 4 > |p| {
          return None;
        }
        sz := Rd32(p[o..]);
        o := o + 4;
      }
      if Has(flags, 0x400) {
        o := o + 4;
      }
      if Has(flags, 0x800) {
        o := o + 4;
      }
      if o > |p| {
        return None;
      }
      return Some((sz, o));
    }

    /** The sample loop of a trun; entries beyond the table are not read. */
    method ParseRun(p: seq<byte>, at: nat, flags: nat, size: nat, count: nat)
      requires Shaped() && nsamp <= MAX_SAMPLES
      modifies sizes, this`nsamp
      ensures nsamp <= MAX_SAMPLES
      ensures sizes[..nsamp] == old(sizes[..nsamp]) + RunSizes(p, at, flags, size, count, MAX_SAMPLES - old(nsamp))
    {
      hide RunEntry, Clamp16;
      var i, o: nat := 0, at;
      ghost var all := sizes[..nsamp] + RunSizes(p, at, flags, size, count, MAX_SAMPLES - nsamp);
      while i < count && nsamp < MAX_SAMPLES
        invariant 0 <= i <= count && nsamp <= MAX_SAMPLES
        invariant all == sizes[..nsamp] + RunSizes(p, o, flags, size, count - i, MAX_SAMPLES - nsamp)
      {
        var entry := ReadEntry(p, o, flags, size);
        if entry.None? {
          break;
        }
        ghost var before, n := sizes[..nsamp], nsamp;
        sizes[nsamp] := Clamp16(entry.value.0);
        nsamp := nsamp + 1;
        assert sizes[..nsamp] == before + [Clamp16(entry.value.0)];
        o := entry.value.1;
        i := i + 1;
      }
      assert sizes[..nsamp] + [] == sizes[..nsamp];
    }

    /** A tfhd box. */
    method ReadTrackHeader(t: TrackRun, p: seq<byte>) returns (mine: bool, base: nat, dsize: nat)
      requires |p| >= 8
      ensures TrackRun(mine, base, dsize, t.plan) == TrackHeader(t, track, p)
    {
      base, dsize := t.base, t.size;
      var flags := Rd32(p) % 0x100_0000;
      mine := track == 0 || Rd32(p[4..]) == track;
      var o := 8;
      if Has(flags, 1) && o + 8 <= |p| {
        base := Rd64(p[o..]);
        o := o + 8;
      }
      if Has(flags, 2) {
        o := o + 4;
      }
      if Has(flags, 8) {
        o := o + 4;
      }
      if Has(flags, 0x10) && o + 4 <= |p| {
        dsize := Rd32(p[o..]);
        o := o + 4;
      }
    }

    /** A trun box of the demuxer's own track. */
    method ReadTrackSamples(base: nat, dsize: nat, p: seq<byte>)
      requires Shaped() && nsamp <= MAX_SAMPLES && |p| >= 8
      modifies sizes, this`nsamp, this`dataStart, this`dataStartSet
      ensures nsamp <= MAX_SAMPLES
      ensures CurrentPlan() == TrackSamples(TrackRun(true, base, dsize, old(CurrentPlan())), p).plan
    {
      var flags := Rd32(p) % 0x100_0000;
      var count := Rd32(p[4..]);
      var o := 8;
      if Has(flags, 1) {
        if o + 4 > |p| {
          return;
        }
        if !dataStartSet {
          dataStart := Wrap64(base + Signed32(Rd32(p[o..])));
          dataStartSet := true;
        }
        o := o + 4;
      }
      if Has(flags, 4) {
        o := o + 4;
      }
      ParseRun(p, o, flags, dsize, count);
    }

    /** parse_traf: the boxes of one track fragment. */
    method ParseTraf(traf: seq<byte>, moofStart: nat)
      requires Shaped() && nsamp <= MAX_SAMPLES
      modifies sizes, this`nsamp, this`dataStart, this`dataStartSet
      ensures nsamp <= MAX_SAMPLES
      ensures CurrentPlan() == TrafPlan(track, trexSize, moofStart, old(CurrentPlan()), traf)
    {
      hide CurrentPlan, FirstBox;
      var off: nat := 0;
      var mine, base: nat, dsize: nat := true, moofStart, trexSize;
      assert traf[0..] == traf;
      while true
        invariant off <= |traf| && nsamp <= MAX_SAMPLES
        invariant TrackBoxes(TrackRun(mine, base, dsize, CurrentPlan()), track, Boxes(traf[off..])).plan
                  == TrafPlan(track, trexSize, moofStart, old(CurrentPlan()), traf)
        decreases |traf| - off
      {
        var next := FirstBox(traf[off..]);
        if next.None? {
          break;
        }
        var Box(kind, p) := next.value.0;
        ghost var was, here := TrackRun(mine, base, dsize, CurrentPlan()), off;
        off := off + next.value.1;
        assert traf[here..][next.value.1..] == traf[off..];
        assert Boxes(traf[here..])[1..] == Boxes(traf[off..]);
        if kind == TFHD && |p| >= 8 {
          mine, base, dsize := ReadTrackHeader(TrackRun(mine, base, dsize, NO_PLAN), p);
        } else if kind == TRUN && mine && |p| >= 8 {
          ReadTrackSamples(base, dsize, p);
        }
        assert TrackRun(mine, base, dsize, CurrentPlan()) == TrackBox(was, track, Box(kind, p));
      }
    }

    /** parse_moof: forgets the previous fragment and reads the track fragments of this one. */
    method ParseMoof(moof: seq<byte>, moofStart: nat)
      requires Shaped()
      modifies sizes, this`nsamp, this`idx, this`fill, this`dataStart, this`dataStartSet
      ensures nsamp <= MAX_SAMPLES && idx == fill == 0
      ensures CurrentPlan() == MoofPlan(track, trexSize, moofStart, moof)
    {
      hide TrafPlan;
      nsamp, idx, fill := 0, 0, 0;
      dataStartSet := false;
      var off: nat := 0;
      assert moof[0..] == moof && CurrentPlan() == NO_PLAN;
      while true
        invariant off <= |moof| && nsamp <= MAX_SAMPLES && idx == fill == 0
        invariant MoofBoxes(track, trexSize, moofStart, CurrentPlan(), Boxes(moof[off..]))
                  == MoofPlan(track, trexSize, moofStart, moof)
        decreases |moof| - off
      {
        var next := FirstBox(moof[off..]);
        if next.None? {
          break;
        }
        ghost var here := off;
        off := off + next.value.1;
        assert moof[here..][next.value.1..] == moof[off..];
        assert Boxes(moof[here..])[1..] == Boxes(moof[off..]);
        if next.value.0.kind == TRAF {
          ParseTraf(next.value.0.body, moofStart);
        }
      }
    }

    /** ST_HDR, first half: collects header bytes until the header is complete or the input ends. */
    method TakeHeader(rest: seq<byte>) returns (t: nat)
      requires Valid() && mode == HdrMode && rest != []
      modifies this`hdrHave, this`segPos, hdr
      ensures 0 < t <= |rest| && hdrHave <= 16 && hdrHave <= segPos == old(segPos) + t
      ensures hdr[..hdrHave] == old(hdr[..hdrHave]) + rest[..t]
      ensures NeedsMore(old(hdr[..hdrHave]) + rest[..t - 1])
      ensures NeedsMore(hdr[..hdrHave]) ==> t == |rest| && hdrHave < 16
    {
      t := 0;
      ghost var h := hdr[..hdrHave];
      assert h + [] == h;
      while t < |rest| && NeedsMore(hdr[..hdrHave])
        invariant 0 <= t <= |rest| && hdrHave <= 16 && hdrHave <= segPos == old(segPos) + t
        invariant hdr[..hdrHave] == h + rest[..t]
        invariant if t == 0 then NeedsMore(hdr[..hdrHave]) else NeedsMore(h + rest[..t - 1])
      {
        ghost var before := hdr[..hdrHave];
        hdr[hdrHave] := rest[t];
        hdrHave := hdrHave + 1;
        assert hdr[..hdrHave] == before + [rest[t]];
        t := t + 1;
        segPos := segPos + 1;
      }
    }

    /** ST_HDR, last part: the treatment of the box body. */
    method ChooseMode()
      requires Shaped() && nsamp <= MAX_SAMPLES && hdrHave == 0 && boxStart <= segPos && boxHave <= MAX_META_BOX
      modifies this`mode, this`boxHave, this`dataStart, this`dataStartSet
      ensures BoxValid()
      ensures CurrentPhase() ==
              if remain == 0 then Header([])
              else if (kind == MOOV || kind == MOOF) && remain <= MAX_META_BOX then Collect(kind, remain, boxStart, [])
              else if kind == MDAT then Media(remain)
              else Skip(remain)
      ensures var plan := old(CurrentPlan());
              CurrentPlan() == if kind == MDAT && plan.start.None? then plan.(start := Some(segPos)) else plan
    {
      if (kind == MOOV || kind == MOOF) && remain <= MAX_META_BOX {
        mode := CollectMode;
        boxHave := 0;
      } else if kind == MDAT {
        if !dataStartSet {
          dataStart := segPos;
          dataStartSet := true;
        }
        mode := MdatMode;
      } else {
        mode := SkipMode;
      }
      if remain == 0 {
        mode := HdrMode; // nothing to read, so the next header follows
      }
    }

    /** ST_HDR, second part: a complete header selects the treatment of the box body. */
    method StartBox(head: nat, size: nat, boxKind: nat) returns (ok: bool)
      requires Shaped() && nsamp <= MAX_SAMPLES && size <= OPEN_ENDED && head <= segPos && boxHave <= MAX_META_BOX
      modifies this`hdrHave, this`kind, this`boxStart, this`remain, this`mode, this`boxHave, this`dataStart, this`dataStartSet
      ensures boxHave <= MAX_META_BOX
      ensures ok == OpenBox(segPos, old(CurrentPlan()), head, size, boxKind).Some?
      ensures ok ==> BoxValid()
      ensures ok ==> OpenBox(segPos, old(CurrentPlan()), head, size, boxKind).value == (CurrentPhase(), CurrentPlan())
    {
      kind := boxKind;
      boxStart := segPos - head;
      hdrHave := 0;
      if size == 0 {
        remain := OPEN_ENDED;
      } else if size < head {
        return false;
      } else {
        remain := size - head;
      }
      ChooseMode();
      return true;
    }

    method CompleteHeader() returns (ok: bool)
      requires Shaped() && nsamp <= MAX_SAMPLES && hdrHave <= 16 && hdrHave <= segPos && boxHave <= MAX_META_BOX
      requires !NeedsMore(hdr[..hdrHave])
      modifies this`hdrHave, this`kind, this`boxStart, this`remain, this`mode, this`boxHave, this`dataStart, this`dataStartSet
      ensures boxHave <= MAX_META_BOX
      ensures var r := ReadHeader(segPos, old(CurrentPlan()), old(hdr[..hdrHave]));
              ok == r.Some? && (ok ==> BoxValid() && r.value == (CurrentPhase(), CurrentPlan()))
    {
      ghost var h := hdr[..hdrHave];
      assert Rd32(h) == Rd32(hdr[..8]) && Rd32(h[4..]) == Rd32(hdr[4..8]);
      if Rd32(hdr[..8]) == 1 {
        assert h[8..] == hdr[8..16];
        ok := StartBox(16, Rd64(hdr[8..16]), Rd32(hdr[4..8]));
      } else {
        ok := StartBox(8, Rd32(hdr[..8]), Rd32(hdr[4..8]));
      }
    }

    /** ST_HDR on the bytes at hand. */
    method HeaderBytes(rest: seq<byte>) returns (t: nat, ok: bool)
      requires Valid() && mode == HdrMode && rest != []
      modifies this`hdrHave, this`kind, this`boxStart, this`remain, this`mode, this`boxHave, this`dataStart, this`dataStartSet
      modifies this`segPos, hdr
      ensures 0 < t <= |rest| && boxHave <= MAX_META_BOX && segPos == old(segPos) + t
      ensures NeedsMore(old(hdr[..hdrHave]) + rest[..t - 1])
      ensures ok ==> Valid()
      ensures var h := old(hdr[..hdrHave]) + rest[..t];
              if NeedsMore(h) then
                ok && CurrentPhase() == Header(h) && CurrentPlan() == old(CurrentPlan())
              else
                var r := ReadHeader(segPos, old(CurrentPlan()), h);
                ok == r.Some? && (ok ==> r.value == (CurrentPhase(), CurrentPlan()))
    {
      t := TakeHeader(rest);
      if NeedsMore(hdr[..hdrHave]) {
        return t, true;
      }
      ok := CompleteHeader();
    }

    method HeaderTurn(rest: seq<byte>) returns (t: nat, ok: bool)
      requires Valid() && mode == HdrMode && rest != []
      modifies this`hdrHave, this`kind, this`boxStart, this`remain, this`mode, this`boxHave, this`dataStart, this`dataStartSet
      modifies this`segPos, hdr
      ensures 0 < t <= |rest| && boxHave <= MAX_META_BOX && (ok ==> Valid())
      ensures var r := Feed(Demuxer(readMoov), old(View()), rest[..t]);
              r.ok == ok && r.out == [] && r.st.cfg == Cfg() && (ok ==> View() == r.st)
    {
      hide Feed, Then, Demuxer, NeedsMore, ReadHeader, Cfg, CurrentPlan, Cur;
      ghost var s := View();
      t, ok := HeaderBytes(rest);
      assert rest[..t][..t - 1] == rest[..t - 1];
      HeaderStretch(readMoov, s, rest[..t]);
    }

    /** parse_moov's inner loop: the default sample size. */
    method ParseMvex(mvex: seq<byte>)
      modifies this`trexSize
      ensures trexSize == TrexSizes(track, old(trexSize), Boxes(mvex))
    {
      hide FirstBox;
      var off := 0;
      assert mvex[0..] == mvex;
      while true
        invariant off <= |mvex|
        invariant TrexSizes(track, trexSize, Boxes(mvex[off..])) == TrexSizes(track, old(trexSize), Boxes(mvex))
        decreases |mvex| - off
      {
        var next := FirstBox(mvex[off..]);
        if next.None? {
          break;
        }
        ghost var here := off;
        off := off + next.value.1;
        assert mvex[here..][next.value.1..] == mvex[off..];
        assert Boxes(mvex[here..])[1..] == Boxes(mvex[off..]);
        var b := next.value.0;
        if b.kind == TREX && |b.body| >= 24 && (track == 0 || Rd32(b.body[4..]) == track) {
          trexSize := Rd32(b.body[16..]);
        }
      }
    }

    /** One box of parse_moov's loop. */
    method MoovTurn(b: Box)
      modifies this`haveCfg, this`format, this`track, this`trexSize
      ensures Cfg() == Moov.MoovBox(past, old(Cfg()), b)
    {
      hide TrackOf, Boxes, TrexSizes;
      if b.kind == TRAK && !haveCfg {
        var found := ParseTrak(past, b.body);
        if found.Some? {
          format, track := found.value.0, found.value.1;
          haveCfg := true;
        }
      } else if b.kind == MVEX {
        ParseMvex(b.body);
      }
    }

    /** parse_moov: the first AAC track and the default size of its samples. */
    method ParseMoov(moov: seq<byte>) returns (ok: bool)
      modifies this`haveCfg, this`format, this`track, this`trexSize
      ensures Cfg() == readMoov(old(Cfg()), moov) && ok == haveCfg
    {
      hide FirstBox, Moov.MoovBox;
      haveCfg, trexSize := false, 0;
      var off := 0;
      assert moov[0..] == moov;
      while true
        invariant off <= |moov|
        invariant MoovConfig(past, Cfg(), Boxes(moov[off..])) == ReadMoov(past, old(Cfg()), moov)
        decreases |moov| - off
      {
        var next := FirstBox(moov[off..]);
        if next.None? {
          break;
        }
        ghost var here := off;
        off := off + next.value.1;
        assert moov[here..][next.value.1..] == moov[off..];
        assert Boxes(moov[here..])[1..] == Boxes(moov[off..]);
        MoovTurn(next.value.0);
      }
      ok := haveCfg;
    }

    /** A collected moov replaces the configuration, a moof the sample plan. */
    method CloseMetaBox() returns (ok: bool)
      requires SamplesValid() && boxHave <= MAX_META_BOX
      modifies this`haveCfg, this`format, this`track, this`trexSize
      modifies sizes, this`nsamp, this`idx, this`fill, this`dataStart, this`dataStartSet
      ensures SamplesValid()
      ensures Known() == ReadMetaBox(readMoov, old(Known()), kind, boxStart, box[..boxHave])
      ensures ok <==> kind != MOOV || haveCfg
    {
      hide MoofPlan, Reader;
      ok := true;
      if kind == MOOV {
        ok := ParseMoov(box[..boxHave]);
      } else {
        ParseMoof(box[..boxHave], boxStart);
      }
    }

    /** ST_COLLECT on the bytes at hand. */
    method CollectBytes(rest: seq<byte>) returns (t: nat)
      requires Valid() && mode == CollectMode && rest != []
      modifies this`mode, this`boxHave, this`remain, this`segPos, box
      ensures 0 < t <= |rest| && t <= old(remain) && Valid() && segPos == old(segPos) + t
      ensures box[..boxHave] == old(box[..boxHave]) + rest[..t]
      ensures CurrentPhase() ==
              if t == old(remain) then Header([]) else Collect(kind, old(remain) - t, boxStart, box[..boxHave])
      ensures t == old(remain) ==> mode == HdrMode && hdrHave == 0
      ensures t != old(remain) ==> mode == CollectMode
    {
      t := if remain < |rest| then remain else |rest|;
      ghost var have := box[..boxHave];
      Copy(box, boxHave, rest[..t]);
      boxHave := boxHave + t;
      assert box[..boxHave] == have + rest[..t];
      remain := remain - t;
      segPos := segPos + t;
      if remain == 0 {
        mode := HdrMode;
      }
      assert hdr[..0] == [];
    }

    ghost function Known(): Knowledge
      reads this`haveCfg, this`format, this`track, this`trexSize
      reads this`nsamp, this`idx, this`fill, this`dataStart, this`dataStartSet, sizes, frame
      requires Shaped() && nsamp <= MAX_SAMPLES
    {
      Knowledge(Cfg(), CurrentPlan(), Cur())
    }

    method CollectMeta(rest: seq<byte>) returns (t: nat, ok: bool)
      requires Valid() && mode == CollectMode && rest != []
      modifies this`mode, this`boxHave, this`remain, this`segPos, box
      modifies this`haveCfg, this`format, this`track, this`trexSize
      modifies sizes, this`nsamp, this`idx, this`fill, this`dataStart, this`dataStartSet
      ensures 0 < t <= |rest| && t <= old(remain) && Valid() && segPos == old(segPos) + t
      ensures var have := old(box[..boxHave]) + rest[..t];
              if t < old(remain) then
                ok && CurrentPhase() == Collect(kind, old(remain) - t, boxStart, have) && Known() == old(Known())
              else
                && CurrentPhase() == Header([]) && ok == (kind != MOOV || haveCfg)
                && Known() == ReadMetaBox(readMoov, old(Known()), kind, boxStart, have)
    {
      hide Feed, Then, MoofPlan;
      ok := true;
      t := CollectBytes(rest);
      if mode == HdrMode {
        ok := CloseMetaBox();
      }
    }

    /** ST_COLLECT. */
    method CollectTurn(rest: seq<byte>) returns (t: nat, ok: bool)
      requires Valid() && mode == CollectMode && rest != []
      modifies this`mode, this`boxHave, this`remain, this`segPos, box
      modifies this`haveCfg, this`format, this`track, this`trexSize
      modifies sizes, this`nsamp, this`idx, this`fill, this`dataStart, this`dataStartSet
      ensures 0 < t <= |rest| && Valid()
      ensures var r := Feed(Demuxer(readMoov), old(View()), rest[..t]);
              r.ok == ok && r.out == [] && r.st == View()
    {
      hide Feed, Then;
      ghost var s := View();
      t, ok := CollectMeta(rest);
      CollectStretch(readMoov, s, rest[..t]);
    }

    /** ST_SKIP. */
    method SkipTurn(rest: seq<byte>) returns (t: nat)
      requires Valid() && mode == SkipMode && rest != []
      modifies this`mode, this`remain, this`segPos
      ensures 0 < t <= |rest| && Valid()
      ensures Feed(Demuxer(readMoov), old(View()), rest[..t]) == Run(View(), [], true)
    {
      hide Feed, Then, Demuxer, Cfg, CurrentPlan, Cur;
      t := if remain < |rest| then remain else |rest|;
      SkipStretch(readMoov, View(), rest[..t]);
      if remain != OPEN_ENDED {
        remain := remain - t;
      }
      segPos := segPos + t;
      if remain == 0 {
        mode := HdrMode;
        assert hdr[..0] == [];
      }
    }

    /** ST_MDAT on the bytes at hand. */
    method MdatBytes(rest: seq<byte>) returns (t: nat)
      requires Valid() && mode == MdatMode && rest != []
      modifies this`mode, this`remain, this`segPos, this`idx, this`fill, this`sunk, frame
      ensures 0 < t <= |rest| && t <= old(remain) && Valid() && segPos == old(segPos) + t
      ensures var r := Feed(Sampler(format, CurrentPlan()), Place(old(Cur()), old(segPos)), rest[..t]);
              r.st.cur == Cur() && sunk == old(sunk) + r.out
      ensures var left := Less(old(remain), t);
              CurrentPhase() == if left == 0 then Header([]) else Media(left)
    {
      hide Feed, Then, Sampler, CurrentPlan, Cur, SamplesValid;
      t := if remain < |rest| then remain else |rest|;
      MdatChunk(rest[..t]);
      if remain != OPEN_ENDED {
        remain := remain - t;
      }
      segPos := segPos + t;
      if remain == 0 {
        mode := HdrMode;
      }
      assert hdr[..0] == [];
    }

    /** ST_MDAT. */
    method MdatTurn(rest: seq<byte>) returns (t: nat, ghost made: seq<seq<byte>>, ok: bool)
      requires Valid() && mode == MdatMode && rest != []
      modifies this`mode, this`remain, this`segPos, this`idx, this`fill, this`sunk, frame
      ensures 0 < t <= |rest| && Valid() && sunk == old(sunk) + made
      ensures Feed(Demuxer(readMoov), old(View()), rest[..t]) == Run(View(), made, ok)
    {
      hide Feed, Then;
      ghost var s := View();
      if !haveCfg {
        FeedOne(Demuxer(readMoov), s, rest[0]);
        assert rest[..1] == [rest[0]];
        return 1, [], false;
      }
      t := MdatBytes(rest);
      MediaStretch(readMoov, s, rest[..t]);
      made := Feed(Demuxer(readMoov), s, rest[..t]).out;
      ok := true;
    }

    /** One turn of fmp4_feed's loop. */
    method Turn(rest: seq<byte>) returns (t: nat, ghost made: seq<seq<byte>>, ok: bool)
      requires Valid() && rest != []
      modifies this, hdr, box, sizes, frame
      ensures 0 < t <= |rest| && boxHave <= MAX_META_BOX && (ok ==> Valid()) && sunk == old(sunk) + made
      ensures var r := Feed(Demuxer(readMoov), old(View()), rest[..t]);
              ok == r.ok && made == r.out && Cfg() == r.st.cfg && (ok ==> View() == r.st)
    {
      hide Feed, Then, Demuxer, Cfg, CurrentPhase, CurrentPlan, Cur;
      made := [];
      match mode {
        case HdrMode => t, ok := HeaderTurn(rest);
        case CollectMode => t, ok := CollectTurn(rest);
        case SkipMode => t := SkipTurn(rest); ok := true;
        case MdatMode => t, made, ok := MdatTurn(rest);
      }
    }

    /** fmp4_feed: the demuxer's loop over the bytes of one network read. */
    method FeedRead(d: seq<byte>) returns (ok: bool)
      requires Valid()
      modifies this, hdr, box, sizes, frame
      ensures boxHave <= MAX_META_BOX && (ok ==> Valid())
      ensures var r := Feed(Demuxer(readMoov), old(View()), d);
              && ok == r.ok && sunk == old(sunk) + r.out && Cfg() == r.st.cfg
              && (ok ==> View() == r.st)
    {
      hide Feed, Then, Demuxer, SamplesValid, Cfg, CurrentPhase, CurrentPlan, Cur;
      var i: nat := 0;
      ghost var step := Demuxer(readMoov);
      assert d[..0] == [];
      FeedNone(step, View());
      ghost var log: seq<seq<byte>> := [];
      while i < |d|
        invariant i <= |d| && Valid() && sunk == old(sunk) + log
        invariant Feed(step, old(View()), d[..i]) == Run(View(), log, true)
      {
        ghost var here := View();
        var t;
        ghost var made;
        t, made, ok := Turn(d[i..]);
        assert d[..i + t] == d[..i] + d[i..][..t] && d == d[..i + t] + d[i + t..];
        FeedThen(step, old(View()), d[..i], Run(here, log, true), d[i..][..t]);
        log := log + made;
        if !ok {
          FeedFailed(step, old(View()), d[..i + t], d[i + t..]);
          return;
        }
        i := i + t;
      }
      assert d[..i] == d;
      ok := true;
    }

    /** The reads of one download, until the demuxer gives up: how they are cut does not show. */
    method FeedReads(pieces: seq<seq<byte>>) returns (ok: bool)
      requires Valid()
      modifies this, hdr, box, sizes, frame
      ensures boxHave <= MAX_META_BOX && (ok ==> Valid())
      ensures var r := Feed(Demuxer(readMoov), old(View()), Flatten(pieces));
              && ok == r.ok && sunk == old(sunk) + r.out && Cfg() == r.st.cfg
              && (ok ==> View() == r.st)
    {
      hide Feed, Then, Flatten;
      ghost var step, log: seq<seq<byte>>, s0 := Demuxer(readMoov), [], View();
      var i := 0;
      FlattenNone<byte>();
      assert pieces[..0] == [];
      FeedNone(step, s0);
      while i < |pieces|
        invariant 0 <= i <= |pieces| && Valid() && sunk == old(sunk) + log
        invariant Feed(step, s0, Flatten(pieces[..i])) == Run(View(), log, true)
      {
        ghost var here, before := View(), sunk;
        ok := FeedRead(pieces[i]);
        assert pieces[..i + 1] == pieces[..i] + [pieces[i]] && pieces == pieces[..i + 1] + pieces[i + 1..];
        FlattenConcat(pieces[..i], [pieces[i]]);
        FlattenOne(pieces[i]);
        FeedThen(step, s0, Flatten(pieces[..i]), Run(here, log, true), pieces[i]);
        log := log + Feed(step, here, pieces[i]).out;
        if !ok {
          FlattenConcat(pieces[..i + 1], pieces[i + 1..]);
          FeedFailed(step, s0, Flatten(pieces[..i + 1]), Flatten(pieces[i + 1..]));
          return;
        }
        i := i + 1;
      }
      assert pieces[..i] == pieces;
      ok := true;
    }

    /**
     * One media segment, whatever the demuxer was left with before, even after an aborted download:
     * the sink sees what the segment's bytes and the retained configuration determine.
     */
    method PlaySegment(pieces: seq<seq<byte>>) returns (ok: bool)
      requires Shaped() && boxHave <= MAX_META_BOX
      modifies this, hdr, box, sizes, frame
      ensures Valid() && View() == Reset(Cfg())
      ensures var r := Feed(Demuxer(readMoov), Reset(old(Cfg())), Flatten(pieces));
              ok == r.ok && sunk == old(sunk) + r.out && Cfg() == r.st.cfg
    {
      hide Feed, Then;
      SegmentEnd();
      ok := FeedReads(pieces);
      SegmentEnd();
    }

    /** fmp4_feed_init: every read of an init segment is parsed on its own, from the reset state. */
    method FeedInit(d: seq<byte>) returns (ok: bool)
      requires Shaped() && boxHave <= MAX_META_BOX
      modifies this, hdr, box, sizes, frame
      ensures Valid() && View() == Reset(Cfg())
      ensures var r := Feed(Demuxer(readMoov), Reset(old(Cfg())), d);
              ok == r.ok && sunk == old(sunk) + r.out && Cfg() == r.st.cfg
    {
      hide Feed, Then;
      SegmentEnd();
      ok := FeedRead(d);
      SegmentEnd();
    }
  }

  /** `whole` is the run that has made `log` so far and goes on as `r`. */
  ghost predicate Continues<S, O>(whole: Run<S, O>, log: seq<O>, r: Run<S, O>) {
    whole == Run(r.st, log + r.out, r.ok)
  }

  lemma TurnContinues<S, I, O>(step: Step<S, I, O>, s: S, d: seq<I>, t: nat)
    requires t <= |d|
    ensures var r := Feed(step, s, d[..t]);
            r.ok ==> Continues(Feed(step, s, d), r.out, Feed(step, r.st, d[t..]))
  {
    assert d == d[..t] + d[t..];
    FeedSplit(step, s, d[..t], d[t..]);
  }

  lemma ContinuesTwice<S, O>(whole: Run<S, O>, a: seq<O>, mid: Run<S, O>, b: seq<O>, r: Run<S, O>)
    requires Continues(whole, a, mid) && Continues(mid, b, r)
    ensures Continues(whole, a + b, r)
  {
    assert a + (b + r.out) == a + b + r.out;
  }
}
