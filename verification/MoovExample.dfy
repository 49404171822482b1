/** A small movie for every format, and what becomes of a default sample size announced in front of its track. */
module MoovExample {
  import opened Bytes
  import opened Adts
  import opened AudioConfig
  import opened Fmp4Boxes
  import opened Fmp4Spec
  import opened Fmp4Theorems
  import opened Moov
  import opened MoovMux

  function Zeros(n: nat): (b: seq<byte>)
    ensures |b| == n && forall i :: 0 <= i < n ==> b[i] == 0
  {
    seq(n, i requires 0 <= i < n => 0)
  }

  function Tkhd(id: nat): (b: seq<byte>)
    requires id < 0x1_0000_0000
    ensures |b| == 20 && b[0] == 0
  {
    Zeros(12) + Be32(id) + Zeros(4)
  }

  function PlainEsds(f: AudioFormat): Esds {
    Esds(Zeros(4), 0, 1, Zeros(2), 0, [], 0, 1, Zeros(13), 1, PlainAsc(f), [])
  }

  function Around(kind: nat): Layer { Layer([], kind, false, []) }

  function PlainLayers(id: nat): seq<Layer>
    requires id < 0x1_0000_0000
  {
    [Layer([Item(Box(TKHD, Tkhd(id)), false)], MDIA, false, []), Around(MINF), Around(STBL), Around(STSD)]
  }

  function PlainTrack(f: AudioFormat, id: nat): Track
    requires id < 0x1_0000_0000
  {
    Track(PlainLayers(id), Tkhd(id), Zeros(8), false, [], Zeros(28), Around(ESDS), PlainEsds(f))
  }

  lemma PlainEsdsOk(f: AudioFormat)
    ensures EsdsOk(PlainEsds(f)) && |EsdsCode(PlainEsds(f))| == 28
  {
  }

  lemma LayersOk(id: nat)
    requires id < 0x1_0000_0000
    ensures
      var ls := PlainLayers(id);
      Kinds(ls) == DESCRIPTIONS && First(ls) && Find(BoxesOf(ls[0].before), TKHD) == Some(Tkhd(id))
  {
    hide Tkhd;
    var ls := PlainLayers(id);
    assert BoxesOf([]) == [];
    assert BoxesOf(ls[0].before) == [Box(TKHD, Tkhd(id))];
    assert Find(BoxesOf(ls[0].before), MDIA) == Find([], MDIA) by {
      assert [Box(TKHD, Tkhd(id))][1..] == [];
    }
  }

  /** Small boxes can always be wrapped. */
  lemma Wraps(l: Layer, body: seq<byte>)
    requires Fit(l.before) && l.kind < 0x1_0000_0000 && !l.wide && |body| < 0x1000_0000
    ensures Wrapped(l, body).Some? && |Wrapped(l, body).value| == |Written(l.before)| + |body| + 8 + |l.after|
  {
  }

  lemma {:induction false} Nests(layers: seq<Layer>, inner: seq<byte>)
    requires |inner| + 8 * |layers| < 0x1000
    requires forall l <- layers :: l.before == [] && l.kind < 0x1_0000_0000 && !l.wide && l.after == []
    ensures Nest(layers, inner).Some? && |Nest(layers, inner).value| == |inner| + 8 * |layers|
    decreases |layers|
  {
    hide Wrapped;
    if layers != [] {
      Nests(layers[1..], inner);
      Wraps(layers[0], Nest(layers[1..], inner).value);
      assert Written([]) == [];
    }
  }

  lemma PlainStsd(f: AudioFormat, id: nat)
    requires id < 0x1_0000_0000
    ensures
      var t := PlainTrack(f, id);
      && TrackOk(t) && StsdCode(t).Some? && |StsdCode(t).value| == 80
      && Announced(t) == Some(f)
  {
    var t := PlainTrack(f, id);
    PlainEsdsOk(f);
    LayersOk(id);
    assert First([t.box]) by {
      assert BoxesOf([]) == [];
    }
    assert Written([]) == [];
    hide EsdsCode, EsdsOk, Tkhd, First, Kinds, BoxesOf, AscFormat, PlainAsc, Wrapped;
    Wraps(t.box, EsdsCode(t.esds));
    Wraps(Layer([], MP4A, t.wide, t.after), t.sound + Wrapped(t.box, EsdsCode(t.esds)).value);
    PlainAscRoundTrip(f, [], Rd16(t.sound[16..]));
    assert PlainAsc(f) + [] == PlainAsc(f);
  }

  lemma PlainTrak(f: AudioFormat, id: nat)
    requires id < 0x1_0000_0000
    ensures
      var t := PlainTrack(f, id);
      && TrackOk(t) && Announced(t) == Some(f)
      && TrakCode(t).Some? && |TrakCode(t).value| == 140
  {
    var t := PlainTrack(f, id);
    PlainStsd(f, id);
    hide StsdCode, Announced, TrackOk, Wrapped, Tkhd;
    var stsd, rest := StsdCode(t).value, t.layers[1..];
    assert rest == [Around(MINF), Around(STBL), Around(STSD)];
    Nests(rest, stsd);
    var items := t.layers[0].before;
    assert items == [Item(Box(TKHD, Tkhd(id)), false)] && items[1..] == [];
    assert Written(items[1..]) == [];
    Wraps(t.layers[0], Nest(rest, stsd).value);
  }

  /** An mvex with the default sample size of one track. */
  function Mvex(id: nat, n: nat): Box
    requires id < 0x1_0000_0000 && n < 0x1_0000_0000
  {
    Box(MVEX, Encode(Box(TREX, TrexBody(id, n)), false))
  }

  function TrexBody(id: nat, n: nat): (b: seq<byte>)
    requires id < 0x1_0000_0000 && n < 0x1_0000_0000
    ensures |b| == 24
  {
    Zeros(4) + Be32(id) + Zeros(8) + Be32(n) + Zeros(4)
  }

  lemma MvexDefaults(id: nat, n: nat)
    requires id < 0x1_0000_0000 && n < 0x1_0000_0000
    ensures Defaults(Mvex(id, n), id, n)
  {
    var b := TrexBody(id, n);
    assert b[4..][..4] == Be32(id) && b[16..][..4] == Be32(n);
    hide TrexBody, Boxes, Encode;
    BoxesOfOne(Box(TREX, b));
    Rd32Of(Be32(id), b[4..]);
    Rd32Of(Be32(n), b[16..]);
  }

  lemma PlainNumber(past: Past, id: nat)
    requires id < 0x1_0000_0000
    ensures TrackId(past, Tkhd(id)) == id
  {
    var b := Tkhd(id);
    assert b[12..][..4] == Be32(id);
    Rd32Of(Be32(id), b[12..]);
  }

  /** The small movie, with the default sample size announced in front of its track. */
  function SizeFirst(f: AudioFormat, id: nat, n: nat): Movie
    requires id < 0x1_0000_0000 && n < 0x1_0000_0000
  {
    Movie([Item(Mvex(id, n), false)], PlainTrack(f, id), false, [])
  }

  lemma SizeFirstOk(past: Past, f: AudioFormat, id: nat, n: nat)
    requires id < 0x1_0000_0000 && n < 0x1_0000_0000
    ensures
      var m := SizeFirst(f, id, n);
      && MovieOk(m) && 0 < |MovieCode(m)| <= MAX_META_BOX && Announced(m.track) == Some(f)
      && FirstTrack(past, BoxesOf(m.pre)).None? && BoxesOf(m.pre) == [Mvex(id, n)]
  {
    PlainTrak(f, id);
    hide PlainTrack, TrakCode, TrackOk, Announced, TrexBody;
    var m := SizeFirst(f, id, n);
    assert m.pre[1..] == [] && Written(m.pre[1..]) == [] && Written([]) == [];
    assert BoxesOf(m.pre) == [Mvex(id, n)] && [Mvex(id, n)][1..] == [];
    assert FirstTrack(past, []) == None;
  }

  lemma SizeFirstBoxes(past: Past, f: AudioFormat, id: nat, n: nat) returns (trak: Box)
    requires id < 0x1_0000_0000 && n < 0x1_0000_0000
    ensures MovieOk(SizeFirst(f, id, n)) && Boxes(MovieCode(SizeFirst(f, id, n))) == [] + [Mvex(id, n)] + [trak]
    ensures FirstTrack(past, [] + [Mvex(id, n)] + [trak]) == Some((f, id)) && trak.kind == TRAK
  {
    var m := SizeFirst(f, id, n);
    SizeFirstOk(past, f, id, n);
    hide MovieOk, MovieCode, Boxes, TrakCode, Announced, FirstTrack, Mvex, Tkhd, TrackId, BoxesOf, PlainLayers, PlainEsds;
    MovieIsRead(m);
    MovieTrack(past, m, f);
    PlainNumber(past, id);
    trak := Box(TRAK, TrakCode(m.track).value);
    MovieParts(m, Mvex(id, n));
  }

  lemma MovieParts(m: Movie, first: Box)
    requires MovieOk(m) && m.pre == [Item(first, false)] && m.post == []
    ensures MovieBoxes(m) == [] + [first] + [Box(TRAK, TrakCode(m.track).value)]
  {
    hide MovieOk, TrakCode;
    assert BoxesOf(m.pre) == [first] && BoxesOf(m.post) == [];
  }

  /**
   * Finding: a default size in front of its track is adopted exactly if no track number is known from an earlier
   * moov, or the same one; otherwise it stays 0.
   */
  lemma DefaultSizeLost(past: Past, was: Config, f: AudioFormat, id: nat, n: nat)
    requires id < 0x1_0000_0000 && 0 < n < 0x1_0000_0000
    ensures MovieOk(SizeFirst(f, id, n)) && 0 < |MovieCode(SizeFirst(f, id, n))| <= MAX_META_BOX
    ensures Reader(past)(was, MovieCode(SizeFirst(f, id, n))) == Config(Some(f), id, if was.track in {0, id} then n else 0)
  {
    SizeFirstOk(past, f, id, n);
    MvexDefaults(id, n);
    hide MovieOk, MovieCode, SizeFirst, Boxes, FirstTrack, Mvex, Defaults, MoovConfig;
    var trak := SizeFirstBoxes(past, f, id, n);
    NoneInOne(trak);
    DefaultSizeExact(past, was, [], Mvex(id, n), [trak], f, id, n);
  }

  lemma NoneInOne(b: Box)
    requires b.kind != MVEX
    ensures Find([b], MVEX) == None
  {
    assert [b][1..] == [];
  }
}
