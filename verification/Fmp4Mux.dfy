/** A muxer for fragmented MP4 audio, and the proof that the demuxer undoes it. */
module Fmp4Mux {
  import opened Bytes
  import opened Machine
  import opened Adts
  import opened Fmp4Boxes
  import opened Fmp4Spec
  import opened Fmp4Theorems

  /** A moof of this many samples still fits the demuxer's box buffer. */
  const MAX_GROUP := 3061

  predicate Group(samples: seq<seq<byte>>) {
    |samples| <= MAX_GROUP && forall s :: s in samples ==> 1 <= |s| <= MAX_FRAME
  }

  function Lengths(samples: seq<seq<byte>>): (r: seq<nat>)
    ensures |r| == |samples|
  {
    if samples == [] then [] else [|samples[0]|] + Lengths(samples[1..])
  }

  predicate Small(sizes: seq<nat>) {
    forall i :: 0 <= i < |sizes| ==> sizes[i] <= 0xFFFF
  }

  function SizeTable(sizes: seq<nat>): (r: seq<byte>)
    requires Small(sizes)
    ensures |r| == 4 * |sizes|
  {
    if sizes == [] then [] else Be32(sizes[0]) + SizeTable(sizes[1..])
  }

  function TfhdBody(track: nat): (r: seq<byte>)
    requires track < 0x1_0000_0000
    ensures |r| == 8
  {
    Be32(0x2_0000) + Be32(track)
  }

  /** Flags: data offset present, sample sizes present. */
  function TrunBody(sizes: seq<nat>, offset: nat): (r: seq<byte>)
    requires |sizes| <= MAX_GROUP && Small(sizes) && offset < 0x8000_0000
    ensures |r| == 12 + 4 * |sizes|
  {
    Be32(0x201) + Be32(|sizes|) + Be32(offset) + SizeTable(sizes)
  }

  function TrafBody(track: nat, sizes: seq<nat>, offset: nat): (r: seq<byte>)
    requires track < 0x1_0000_0000
    requires |sizes| <= MAX_GROUP && Small(sizes) && offset < 0x8000_0000
    ensures |r| == 36 + 4 * |sizes|
  {
    Encode(Box(TFHD, TfhdBody(track)), false) + Encode(Box(TRUN, TrunBody(sizes, offset)), false)
  }

  /** The data offset counts from the start of the moof to the payload of the mdat behind it. */
  function MoofBody(track: nat, sizes: seq<nat>): (r: seq<byte>)
    requires track < 0x1_0000_0000
    requires |sizes| <= MAX_GROUP && Small(sizes)
    ensures 0 < |r| == 44 + 4 * |sizes| <= MAX_META_BOX
  {
    Encode(Box(TRAF, TrafBody(track, sizes, 60 + 4 * |sizes|)), false)
  }

  // ---- the moof is read back as written

  lemma {:induction false} TableEntry(sizes: seq<nat>, i: nat)
    requires Small(sizes) && i < |sizes|
    ensures SizeTable(sizes)[4 * i..][..4] == Be32(sizes[i])
  {
    var t := SizeTable(sizes);
    if i > 0 {
      TableEntry(sizes[1..], i - 1);
      assert t[4 * i..] == SizeTable(sizes[1..])[4 * (i - 1)..];
    }
  }

  lemma SizesOnly()
    ensures Has(0x201, 1) && Has(0x201, 0x200)
    ensures !Has(0x201, 4) && !Has(0x201, 0x100) && !Has(0x201, 0x400) && !Has(0x201, 0x800)
  {
  }

  /** Entry `i` of the table holds size `i`. */
  lemma EntryReadBack(sizes: seq<nat>, offset: nat, size: nat, i: nat)
    requires |sizes| <= MAX_GROUP && Small(sizes) && offset < 0x8000_0000 && i < |sizes|
    ensures RunEntry(TrunBody(sizes, offset), 12 + 4 * i, 0x201, size) == Some((sizes[i], 12 + 4 * (i + 1)))
  {
    var p := TrunBody(sizes, offset);
    assert p[12 + 4 * i..] == SizeTable(sizes)[4 * i..];
    hide SizeTable, Has, TrunBody, Be32, Rd32;
    TableEntry(sizes, i);
    SizesOnly();
  }

  lemma {:induction false} SizesReadBack(sizes: seq<nat>, offset: nat, size: nat, i: nat)
    requires |sizes| <= MAX_GROUP && Small(sizes) && offset < 0x8000_0000
    requires i <= |sizes|
    ensures RunSizes(TrunBody(sizes, offset), 12 + 4 * i, 0x201, size, |sizes| - i, MAX_SAMPLES - i) == sizes[i..]
    decreases |sizes| - i
  {
    if i < |sizes| {
      SizesReadBack(sizes, offset, size, i + 1);
      EntryReadBack(sizes, offset, size, i);
      hide TrunBody, RunEntry;
    }
  }

  lemma TrunReadBack(t: TrackRun, sizes: seq<nat>, offset: nat)
    requires |sizes| <= MAX_GROUP && Small(sizes) && offset < 0x8000_0000
    requires t.plan == NO_PLAN
    ensures TrackSamples(t, TrunBody(sizes, offset)).plan == Plan(sizes, Some(Wrap64(t.base + offset)))
  {
    hide SizeTable, Has, Be32, Rd32;
    SizesOnly();
    var p := TrunBody(sizes, offset);
    assert p[..4] == Be32(0x201) && p[4..][..4] == Be32(|sizes|) && p[8..][..4] == Be32(offset);
    Rd32Prefix(p[..4], p[4..]);
    Rd32Prefix(p[4..][..4], p[8..]);
    Rd32Prefix(p[8..][..4], p[12..]);
    assert p == p[..4] + p[4..] && p[4..] == p[4..][..4] + p[8..] && p[8..] == p[8..][..4] + p[12..];
    SizesReadBack(sizes, offset, t.size, 0);
    assert sizes[0..] == sizes && [] + sizes == sizes;
  }

  lemma TfhdReadBack(t: TrackRun, track: nat, own: nat)
    requires own < 0x1_0000_0000 && (track == 0 || track == own)
    ensures TrackHeader(t, track, TfhdBody(own)) == t.(mine := true)
  {
    var p := TfhdBody(own);
    assert p[..4] == Be32(0x2_0000) && p[4..] == Be32(own);
  }

  lemma TrafReadBack(track: nat, own: nat, size: nat, at: nat, sizes: seq<nat>, offset: nat)
    requires own < 0x1_0000_0000 && (track == 0 || track == own)
    requires |sizes| <= MAX_GROUP && Small(sizes) && offset < 0x8000_0000
    ensures TrafPlan(track, size, at, NO_PLAN, TrafBody(own, sizes, offset)) == Plan(sizes, Some(Wrap64(at + offset)))
  {
    hide Encode, TfhdBody, TrunBody, TrackHeader, TrackSamples;
    var tfhd, trun := Box(TFHD, TfhdBody(own)), Box(TRUN, TrunBody(sizes, offset));
    FirstOfEncoded(tfhd, false, Encode(trun, false));
    BoxesOfOne(trun);
    var t := TrackRun(true, at, size, NO_PLAN);
    TfhdReadBack(t, track, own);
    TrunReadBack(t, sizes, offset);
    assert [tfhd] + [trun] == [tfhd, trun];
    assert [tfhd, trun][1..] == [trun] && [trun][1..] == [];
    assert TrackBoxes(t, track, [tfhd, trun]) == TrackBoxes(TrackBox(t, track, tfhd), track, [trun]);
    assert TrackBoxes(t, track, [trun]) == TrackBoxes(TrackBox(t, track, trun), track, []);
  }

  lemma MoofReadBack(track: nat, own: nat, size: nat, at: nat, sizes: seq<nat>)
    requires own < 0x1_0000_0000 && (track == 0 || track == own)
    requires |sizes| <= MAX_GROUP && Small(sizes)
    ensures MoofPlan(track, size, at, MoofBody(own, sizes)) == Plan(sizes, Some(Wrap64(at + 60 + 4 * |sizes|)))
  {
    hide Encode, TrafBody, TrafPlan;
    var traf := Box(TRAF, TrafBody(own, sizes, 60 + 4 * |sizes|));
    BoxesOfOne(traf);
    TrafReadBack(track, own, size, at, sizes, 60 + 4 * |sizes|);
    assert [traf][1..] == [];
    var plan := TrafPlan(track, size, at, NO_PLAN, traf.body);
    assert MoofBoxes(track, size, at, plan, []) == plan;
  }

  // ---- the media is cut back into its samples

  lemma {:induction false} LengthsAt(samples: seq<seq<byte>>, i: nat)
    requires i < |samples|
    ensures Lengths(samples)[i] == |samples[i]|
  {
    if i > 0 {
      LengthsAt(samples[1..], i - 1);
    }
  }

  lemma LengthsSmall(samples: seq<seq<byte>>)
    requires Group(samples)
    ensures Small(Lengths(samples))
  {
    forall i | 0 <= i < |samples| ensures Lengths(samples)[i] <= 0xFFFF {
      LengthsAt(samples, i);
      assert samples[i] in samples;
    }
  }

  /** Sample `i` of a group lies where the size table puts it. */
  lemma {:induction false} SampleAt(samples: seq<seq<byte>>, i: nat)
    requires i <= |samples|
    ensures Offset(Lengths(samples), i) == |Flatten(samples[..i])| <= |Flatten(samples)|
    ensures Flatten(samples)[Offset(Lengths(samples), i)..] == Flatten(samples[i..])
  {
    assert samples == samples[..i] + samples[i..];
    FlattenConcat(samples[..i], samples[i..]);
    if i > 0 {
      SampleAt(samples, i - 1);
      LengthsAt(samples, i - 1);
      assert samples[..i] == samples[..i - 1] + [samples[i - 1]];
      FlattenConcat(samples[..i - 1], [samples[i - 1]]);
      FlattenOne(samples[i - 1]);
    }
  }

  lemma {:induction false} FlattenBound(samples: seq<seq<byte>>)
    requires forall s :: s in samples ==> |s| <= MAX_FRAME
    ensures |Flatten(samples)| <= MAX_FRAME * |samples|
  {
    if samples != [] {
      FlattenBound(samples[1..]);
    }
  }

  lemma MediaSlice(seg: seq<byte>, start: nat, media: seq<byte>, at: nat, n: nat)
    requires start + |media| <= |seg| && seg[start..start + |media|] == media && at + n <= |media|
    ensures seg[start + at..start + at + n] == media[at..][..n]
  {
    assert seg[start + at..start + at + n] == seg[start..start + |media|][at..][..n];
  }

  lemma {:induction false} MediaSamples(f: AudioFormat, seg: seq<byte>, start: nat, samples: seq<seq<byte>>, i: nat)
    requires i <= |samples| && forall s :: s in samples ==> 1 <= |s| <= MAX_FRAME
    requires start + |Flatten(samples)| <= |seg| && seg[start..start + |Flatten(samples)|] == Flatten(samples)
    ensures Offset(Lengths(samples), |samples|) == |Flatten(samples)|
    ensures Samples(f, seg, start, Lengths(samples), i) == Frames(f, samples[i..])
    decreases |samples| - i
  {
    hide Lengths, Offset, Frame, Flatten;
    var sizes, media := Lengths(samples), Flatten(samples);
    SampleAt(samples, |samples|);
    assert samples[..|samples|] == samples;
    if i < |samples| {
      MediaSamples(f, seg, start, samples, i + 1);
      SamplesStep(f, seg, start, sizes, i);
      SampleIsSlice(seg, start, samples, i);
      hide Samples;
      assert samples[i..][1..] == samples[i + 1..] && samples[i] in samples;
    }
  }

  lemma SampleIsSlice(seg: seq<byte>, start: nat, samples: seq<seq<byte>>, i: nat)
    requires i < |samples| && forall s :: s in samples ==> 1 <= |s| <= MAX_FRAME
    requires start + |Flatten(samples)| <= |seg| && seg[start..start + |Flatten(samples)|] == Flatten(samples)
    ensures
      var at, n := Offset(Lengths(samples), i), Lengths(samples)[i];
      at + n <= |Flatten(samples)| && seg[start + at..start + at + n] == samples[i]
  {
    hide Lengths, Offset, Flatten;
    SampleAt(samples, i);
    LengthsAt(samples, i);
    FlattenFirst(samples[i..]);
    var at, n, media := Offset(Lengths(samples), i), Lengths(samples)[i], Flatten(samples);
    assert media[at..][..n] == samples[i];
    MediaSlice(seg, start, media, at, n);
  }

  // ---- whole segments

  function MuxGroup(track: nat, samples: seq<seq<byte>>): Fragment
    requires track < 0x1_0000_0000 && Group(samples)
  {
    LengthsSmall(samples);
    Fragment([], MoofBody(track, Lengths(samples)), false, [], Flatten(samples), false)
  }

  lemma MuxedIsWellFormed(track: nat, samples: seq<seq<byte>>)
    requires track < 0x1_0000_0000 && Group(samples)
    ensures WellFormed(MuxGroup(track, samples))
  {
    LengthsSmall(samples);
    FlattenBound(samples);
  }

  ghost predicate Groups(groups: seq<seq<seq<byte>>>) {
    forall g :: g in groups ==> Group(g)
  }

  /** The segment a muxer writes for groups of samples: one moof and one mdat for each. */
  ghost function MuxSegment(track: nat, groups: seq<seq<seq<byte>>>): seq<byte>
    requires track < 0x1_0000_0000 && Groups(groups)
  {
    if groups == [] then []
    else
      MuxedIsWellFormed(track, groups[0]);
      CodeOf(MuxGroup(track, groups[0])) + MuxSegment(track, groups[1..])
  }

  /** A muxed group at position `pos` announces exactly where its samples are. */
  lemma MuxedPlan(cfg: Config, own: nat, samples: seq<seq<byte>>, pos: nat)
    requires own < 0x1_0000_0000 && (cfg.track == 0 || cfg.track == own) && Group(samples)
    requires pos + 60 + 4 * |samples| < 0x1_0000_0000_0000_0000
    ensures var g := MuxGroup(own, samples);
            && WellFormed(g) && PlanOf(cfg, g, pos) == Plan(Lengths(samples), Some(PayloadAt(g, pos)))
            && |CodeOf(g)| == PayloadAt(g, pos) - pos + |g.media|
  {
    hide MoofPlan, MoofBody, Lengths, Encode, Flatten;
    MuxedIsWellFormed(own, samples);
    LengthsSmall(samples);
    MoofReadBack(cfg.track, own, cfg.size, pos, Lengths(samples));
    var g := MuxGroup(own, samples);
    assert Codes([]) == [] && |Head(g)| == 52 + 4 * |samples|;
    assert PayloadAt(g, pos) == pos + 60 + 4 * |samples|;
  }

  lemma MuxedGroup(rd: MoovReader, s: State, f: AudioFormat, own: nat, samples: seq<seq<byte>>, seg: seq<byte>)
    requires s.phase == Header([]) && s.cfg.format == Some(f)
    requires own < 0x1_0000_0000 && (s.cfg.track == 0 || s.cfg.track == own) && Group(samples)
    requires WellFormed(MuxGroup(own, samples)) && |seg| < 0x1_0000_0000_0000_0000
    requires var code := CodeOf(MuxGroup(own, samples)); s.pos + |code| <= |seg| && seg[s.pos..s.pos + |code|] == code
    ensures var code := CodeOf(MuxGroup(own, samples));
            var r := Feed(Demuxer(rd), s, code);
            && r.ok && r.out == Frames(f, samples)
            && r.st.phase == Header([]) && r.st.cfg == s.cfg && r.st.pos == s.pos + |code|
  {
    hide Feed, Then, Samples, PlanOf, CodeOf, Lengths, MoofBody;
    var g, code := MuxGroup(own, samples), CodeOf(MuxGroup(own, samples));
    GroupRoom(own, samples);
    MuxedPlan(s.cfg, own, samples, s.pos);
    var at := PayloadAt(g, s.pos);
    PayloadEnds(g, s.pos, seg);
    assert g.media == Flatten(samples);
    MediaSamples(f, seg, at, samples, 0);
    assert samples[0..] == samples;
    FragmentExtract(rd, s, f, g, seg);
  }

  lemma GroupRoom(own: nat, samples: seq<seq<byte>>)
    requires own < 0x1_0000_0000 && Group(samples) && WellFormed(MuxGroup(own, samples))
    ensures |CodeOf(MuxGroup(own, samples))| >= 60 + 4 * |samples|
  {
    hide MoofBody, Lengths;
    LengthsSmall(samples);
    assert Codes([]) == [];
  }

  /**
   * Demuxing undoes muxing: from any state between boxes, a muxed segment yields the ADTS frames of
   * its samples in order, and nothing else.
   */
  lemma {:induction false} MuxDemux(rd: MoovReader, s: State, f: AudioFormat, own: nat, groups: seq<seq<seq<byte>>>,
                                    seg: seq<byte>)
    requires s.phase == Header([]) && s.cfg.format == Some(f)
    requires own < 0x1_0000_0000 && (s.cfg.track == 0 || s.cfg.track == own) && Groups(groups)
    requires s.pos <= |seg| < 0x1_0000_0000_0000_0000 && seg[s.pos..] == MuxSegment(own, groups)
    ensures var r := Feed(Demuxer(rd), s, MuxSegment(own, groups));
            r.ok && r.out == Frames(f, Flatten(groups))
    decreases |groups|
  {
    hide Feed, Then, CodeOf, MuxGroup;
    if groups == [] {
      FeedNone(Demuxer(rd), s);
    } else {
      MuxedIsWellFormed(own, groups[0]);
      var code, rest := CodeOf(MuxGroup(own, groups[0])), MuxSegment(own, groups[1..]);
      assert seg[s.pos..s.pos + |code|] == seg[s.pos..][..|code|] == code;
      MuxedGroup(rd, s, f, own, groups[0], seg);
      var r := Feed(Demuxer(rd), s, code);
      assert seg[r.st.pos..] == seg[s.pos..][|code|..] == rest;
      MuxDemux(rd, r.st, f, own, groups[1..], seg);
      FeedThen(Demuxer(rd), s, code, r, rest);
      FramesConcat(f, groups[0], Flatten(groups[1..]));
    }
  }

  /**
   * The round trip through the whole audio path: an ADTS receiver that is given the demuxer's output
   * for a muxed segment recovers exactly the muxed samples and their format.
   */
  lemma SamplesSurvive(rd: MoovReader, cfg: Config, f: AudioFormat, own: nat, groups: seq<seq<seq<byte>>>)
    requires cfg.format == Some(f)
    requires own < 0x1_0000_0000 && (cfg.track == 0 || cfg.track == own) && Groups(groups)
    requires |MuxSegment(own, groups)| < 0x1_0000_0000_0000_0000
    ensures var r := Feed(Demuxer(rd), Reset(cfg), MuxSegment(own, groups));
            r.ok && Cut(Flatten(r.out)) == Some(Tagged(f, Flatten(groups)))
  {
    hide Feed, Then, MuxSegment;
    var seg := MuxSegment(own, groups);
    assert seg[0..] == seg;
    MuxDemux(rd, Reset(cfg), f, own, groups, seg);
    GroupsAreSmall(groups);
    CutUndoesFraming(f, Flatten(groups));
  }

  lemma {:induction false} GroupsAreSmall(groups: seq<seq<seq<byte>>>)
    requires Groups(groups)
    ensures forall s :: s in Flatten(groups) ==> |s| <= MAX_FRAME
  {
    if groups != [] {
      GroupsAreSmall(groups[1..]);
      assert Group(groups[0]);
    }
  }
}
