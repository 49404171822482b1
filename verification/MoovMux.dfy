/** Writing a moov, and the proof that the demuxer plays what was written: init segment and media segments together. */
module MoovMux {
  import opened Bytes
  import opened Machine
  import opened Adts
  import opened AudioConfig
  import opened Fmp4Boxes
  import opened Fmp4Spec
  import opened Fmp4Theorems
  import opened Fmp4Mux
  import opened Fmp4Init
  import opened Moov

  // ---- boxes inside boxes

  predicate Fit(items: seq<Item>) {
    forall it :: it in items ==> Encodable(it.box, it.wide)
  }

  function Written(items: seq<Item>): seq<byte>
    requires Fit(items)
  {
    if items == [] then [] else Encode(items[0].box, items[0].wide) + Written(items[1..])
  }

  function BoxesOf(items: seq<Item>): (bs: seq<Box>)
    ensures |bs| == |items| && forall i :: 0 <= i < |items| ==> bs[i] == items[i].box
  {
    seq(|items|, i requires 0 <= i < |items| => items[i].box)
  }

  lemma BoxesOfStep(items: seq<Item>, rest: seq<Box>)
    ensures
      BoxesOf(items) + rest ==
      if items == [] then rest else [items[0].box] + (BoxesOf(items[1..]) + rest)
  {
  }

  /** Written boxes are read back, whatever follows them. */
  lemma {:induction false} BoxesReadBack(items: seq<Item>, rest: seq<byte>)
    requires Fit(items)
    ensures Boxes(Written(items) + rest) == BoxesOf(items) + Boxes(rest)
    decreases |items|
  {
    BoxesOfStep(items, Boxes(rest));
    hide Encode, Encodable, Boxes, BoxesOf;
    if items == [] {
      assert Written(items) + rest == rest;
    } else {
      var code, more := Encode(items[0].box, items[0].wide), Written(items[1..]) + rest;
      assert Written(items) + rest == code + more;
      FirstOfEncoded(items[0].box, items[0].wide, more);
      BoxesReadBack(items[1..], rest);
    }
  }

  /** A box in its container: what stands in front of it, its kind, and any bytes behind it. */
  datatype Layer = Layer(before: seq<Item>, kind: nat, wide: bool, after: seq<byte>)

  /** A box in its layer; None when a size does not fit its field. */
  function Wrapped(l: Layer, body: seq<byte>): Option<seq<byte>> {
    if Fit(l.before) && Encodable(Box(l.kind, body), l.wide) then
      Some(Written(l.before) + (Encode(Box(l.kind, body), l.wide) + l.after))
    else None
  }

  function Nest(layers: seq<Layer>, inner: seq<byte>): Option<seq<byte>>
    decreases |layers|
  {
    if layers == [] then Some(inner)
    else match Nest(layers[1..], inner)
      case None => None
      case Some(body) => Wrapped(layers[0], body)
  }

  function Kinds(layers: seq<Layer>): (ks: seq<nat>)
    ensures |ks| == |layers| && forall i :: 0 <= i < |layers| ==> ks[i] == layers[i].kind
  {
    seq(|layers|, i requires 0 <= i < |layers| => layers[i].kind)
  }

  /** In each layer the box is the first of its kind. */
  predicate First(layers: seq<Layer>) {
    forall l :: l in layers ==> Find(BoxesOf(l.before), l.kind).None?
  }

  lemma {:induction false} FindSplit(a: seq<Box>, b: seq<Box>, kind: nat)
    ensures Find(a + b, kind) == if Find(a, kind).Some? then Find(a, kind) else Find(b, kind)
    decreases |a|
  {
    if a == [] {
      assert a + b == b;
    } else {
      assert (a + b)[1..] == a[1..] + b;
      FindSplit(a[1..], b, kind);
    }
  }

  lemma WrappedFound(l: Layer, body: seq<byte>, kind: nat)
    requires Wrapped(l, body).Some?
    ensures
      var at := Find(BoxesOf(l.before), kind);
      at.Some? || kind == l.kind ==>
        Find(Boxes(Wrapped(l, body).value), kind) == if at.Some? then at else Some(body)
  {
    hide Encode, Encodable, Boxes, Written;
    var code := Encode(Box(l.kind, body), l.wide);
    BoxesReadBack(l.before, code + l.after);
    FirstOfEncoded(Box(l.kind, body), l.wide, l.after);
    FindSplit(BoxesOf(l.before), [Box(l.kind, body)] + Boxes(l.after), kind);
  }

  /** Following the kinds of nested boxes leads to what is inside. */
  lemma {:induction false} NestFollowed(layers: seq<Layer>, inner: seq<byte>)
    requires Nest(layers, inner).Some? && First(layers)
    ensures Follow(Nest(layers, inner).value, Kinds(layers)) == Some(inner)
    decreases |layers|
  {
    hide Boxes, Wrapped, Find;
    if layers != [] {
      NestFollowed(layers[1..], inner);
      WrappedFound(layers[0], Nest(layers[1..], inner).value, layers[0].kind);
      assert Kinds(layers)[1..] == Kinds(layers[1..]);
    }
  }

  // ---- descriptors

  /** 128 to the power of at most four. */
  function Span(k: nat): nat {
    if k == 0 then 1 else if k == 1 then 128 else if k == 2 then 16384 else if k == 3 then 2097152 else 268435456
  }

  /** A descriptor length in exactly `k` bytes; all but the last carry the continuation bit. */
  function LengthCode(n: nat, k: nat): (b: seq<byte>)
    requires 1 <= k <= 4 && n < Span(k)
    ensures |b| == k
    decreases k
  {
    if k == 1 then [n] else [128 + n / Span(k - 1)] + LengthCode(n % Span(k - 1), k - 1)
  }

  lemma SpanStep(n: nat, k: nat, v: nat)
    requires 2 <= k <= 4 && n < Span(k)
    ensures n / Span(k - 1) < 128 && n % Span(k - 1) < Span(k - 1)
    ensures (v * 128 + n / Span(k - 1)) * Span(k - 1) + n % Span(k - 1) == v * Span(k) + n
  {
  }

  lemma LengthStep(p: seq<byte>, i: nat, room: nat, v: nat, d: nat)
    requires i < |p| && room > 0 && d < 128
    ensures p[i] == 128 + d ==> Length(p, i, room, v) == Length(p, i + 1, room - 1, v * 128 + d)
    ensures p[i] == d ==> Length(p, i, room, v) == Some((v * 128 + d, i + 1))
  {
  }

  lemma LengthCodeStep(n: nat, k: nat)
    requires 1 <= k <= 4 && n < Span(k)
    ensures k == 1 ==> n < 128 && LengthCode(n, k) == [n]
    ensures k > 1 ==> n % Span(k - 1) < Span(k - 1)
    ensures k > 1 ==> LengthCode(n, k)[0] == 128 + n / Span(k - 1)
    ensures k > 1 ==> LengthCode(n, k)[1..] == LengthCode(n % Span(k - 1), k - 1)
  {
    if k > 1 {
      SpanStep(n, k, 0);
    }
  }

  /** Every form of a length is read back. */
  lemma {:induction false} LengthReadBack(p: seq<byte>, i: nat, n: nat, k: nat, room: nat, v: nat)
    requires 1 <= k <= 4 && k <= room && n < Span(k)
    requires i + k <= |p| && p[i..i + k] == LengthCode(n, k)
    ensures Length(p, i, room, v) == Some((v * Span(k) + n, i + k))
    decreases k
  {
    LengthCodeStep(n, k);
    hide Length, LengthCode;
    assert p[i] == p[i..i + k][0];
    if k == 1 {
      LengthStep(p, i, room, v, n);
    } else {
      SpanStep(n, k, v);
      var high, low := n / Span(k - 1), n % Span(k - 1);
      hide Span;
      LengthStep(p, i, room, v, high);
      assert p[i + 1..i + k] == p[i..i + k][1..];
      LengthReadBack(p, i + 1, low, k - 1, room - 1, v * 128 + high);
    }
  }

  lemma DescriptorReadBack(p: seq<byte>, i: nat, tag: byte, n: nat, k: nat)
    requires 1 <= k <= 4 && n < Span(k)
    requires i + 1 + k <= |p| && p[i..i + (1 + k)] == [tag] + LengthCode(n, k)
    ensures Descriptor(p, i, tag) == Some((n, i + 1 + k))
  {
    hide Length, LengthCode, Span;
    assert p[i] == p[i..i + (1 + k)][0];
    assert p[i + 1..i + 1 + k] == p[i..i + (1 + k)][1..];
    LengthReadBack(p, i + 1, n, k, 4, 0);
  }

  /** The optional fields of a stream: the number it depends on, an address behind its length, a clock reference. */
  predicate Optional(flags: byte, opt: seq<byte>) {
    var a := if Has(flags, 0x80) then 2 else 0;
    && (Has(flags, 0x40) ==> a < |opt|)
    && |opt| == a + (if Has(flags, 0x40) then 1 + opt[a] as int else 0) + (if Has(flags, 0x20) then 2 else 0)
  }

  lemma FieldsReadBack(p: seq<byte>, i: nat, id: seq<byte>, flags: byte, opt: seq<byte>)
    requires |id| == 2 && Optional(flags, opt)
    requires i + 3 + |opt| <= |p| && p[i..i + (3 + |opt|)] == id + [flags] + opt
    ensures StreamFields(p, i) == Some(i + 3 + |opt|)
  {
    hide Has;
    var s := p[i..i + (3 + |opt|)];
    assert p[i + 2] == s[2] == flags;
    assert forall j :: 0 <= j < |opt| ==> p[i + 3 + j] == s[3 + j] == opt[j];
  }

  /** An esds: a stream descriptor, a decoder configuration in it, and in that the audio configuration. */
  datatype Esds = Esds(version: seq<byte>, stream: nat, streamSize: nat, id: seq<byte>, flags: byte, opt: seq<byte>,
                       decoder: nat, decoderSize: nat, settings: seq<byte>, ascSize: nat, asc: seq<byte>, after: seq<byte>)

  /** Lengths fit their fields of one to four bytes; those of the outer descriptors may be any. */
  predicate EsdsOk(e: Esds) {
    && |e.version| == 4 && |e.id| == 2 && |e.settings| == 13 && Optional(e.flags, e.opt)
    && 1 <= e.streamSize <= 4 && e.stream < Span(e.streamSize)
    && 1 <= e.decoderSize <= 4 && e.decoder < Span(e.decoderSize)
    && 1 <= e.ascSize <= 4 && |e.asc| < Span(e.ascSize)
  }

  /** The two inner descriptors of an esds. */
  function DecoderCode(e: Esds): seq<byte>
    requires EsdsOk(e)
  {
    ([4] + LengthCode(e.decoder, e.decoderSize)) + (e.settings + (([5] + LengthCode(|e.asc|, e.ascSize)) + (e.asc + e.after)))
  }

  function EsdsCode(e: Esds): seq<byte>
    requires EsdsOk(e)
  {
    e.version + (([3] + LengthCode(e.stream, e.streamSize)) + ((e.id + [e.flags] + e.opt) + DecoderCode(e)))
  }

  lemma DecoderReadBack(p: seq<byte>, b: nat, e: Esds)
    requires EsdsOk(e) && b <= |p| && p[b..] == DecoderCode(e)
    ensures
      var c := b + 1 + e.decoderSize;
      var at := c + 14 + e.ascSize;
      && Descriptor(p, b, 4) == Some((e.decoder, c))
      && Descriptor(p, c + 13, 5) == Some((|e.asc|, at))
      && at + |e.asc| <= |p| && p[at..at + |e.asc|] == e.asc
  {
    hide Optional, LengthCode, Span, Descriptor;
    var audio := ([5] + LengthCode(|e.asc|, e.ascSize)) + (e.asc + e.after);
    SegmentParts(p, b, [4] + LengthCode(e.decoder, e.decoderSize), e.settings + audio);
    DescriptorReadBack(p, b, 4, e.decoder, e.decoderSize);
    var c := b + 1 + e.decoderSize;
    SegmentParts(p, c, e.settings, audio);
    SegmentParts(p, c + 13, [5] + LengthCode(|e.asc|, e.ascSize), e.asc + e.after);
    DescriptorReadBack(p, c + 13, 5, |e.asc|, e.ascSize);
    SegmentParts(p, c + 14 + e.ascSize, e.asc, e.after);
  }

  lemma StreamReadBack(p: seq<byte>, e: Esds)
    requires EsdsOk(e) && p == EsdsCode(e)
    ensures
      var a := 5 + e.streamSize;
      var b := a + 3 + |e.opt|;
      && Descriptor(p, 4, 3) == Some((e.stream, a)) && StreamFields(p, a) == Some(b)
      && b <= |p| && p[b..] == DecoderCode(e)
  {
    hide Optional, LengthCode, Span, Descriptor, StreamFields, DecoderCode;
    var fields := e.id + [e.flags] + e.opt;
    assert p == e.version + (([3] + LengthCode(e.stream, e.streamSize)) + (fields + DecoderCode(e))) && p[0..] == p;
    hide EsdsCode;
    SegmentParts(p, 0, e.version, ([3] + LengthCode(e.stream, e.streamSize)) + (fields + DecoderCode(e)));
    SegmentParts(p, 4, [3] + LengthCode(e.stream, e.streamSize), fields + DecoderCode(e));
    DescriptorReadBack(p, 4, 3, e.stream, e.streamSize);
    var a := 5 + e.streamSize;
    SegmentParts(p, a, fields, DecoderCode(e));
    FieldsReadBack(p, a, e.id, e.flags, e.opt);
  }

  /** The audio configuration is found behind every form of the descriptors. */
  lemma EsdsReadBack(e: Esds)
    requires EsdsOk(e)
    ensures AudioBytes(EsdsCode(e)) == Some(e.asc)
  {
    hide Optional, LengthCode, Span, Descriptor, StreamFields, DecoderCode;
    var p := EsdsCode(e);
    StreamReadBack(p, e);
    hide EsdsCode;
    DecoderReadBack(p, 8 + e.streamSize + |e.opt|, e);
  }

  // ---- tracks

  /**
   * A track: the layers from the trak to its sample descriptions, the first of which also holds the track header;
   * the head of the description table; the sound fields of its first entry, and the layer of the esds in it.
   */
  datatype Track = Track(layers: seq<Layer>, tkhd: seq<byte>, head: seq<byte>, wide: bool, after: seq<byte>,
                         sound: seq<byte>, box: Layer, esds: Esds)

  predicate TrackOk(t: Track) {
    && Kinds(t.layers) == DESCRIPTIONS && First(t.layers)
    && Find(BoxesOf(t.layers[0].before), TKHD) == Some(t.tkhd) && |t.tkhd| >= 20
    && |t.head| == 8 && |t.sound| == 28
    && t.box.kind == ESDS && First([t.box]) && EsdsOk(t.esds)
  }

  /** The sample descriptions of a track. */
  function StsdCode(t: Track): Option<seq<byte>>
    requires TrackOk(t)
  {
    match Wrapped(t.box, EsdsCode(t.esds))
    case None => None
    case Some(inner) =>
      match Wrapped(Layer([], MP4A, t.wide, t.after), t.sound + inner)
      case None => None
      case Some(entry) => Some(t.head + entry)
  }

  /** A trak; None when a size does not fit its field. */
  function TrakCode(t: Track): Option<seq<byte>>
    requires TrackOk(t)
  {
    match StsdCode(t) case None => None case Some(stsd) => Nest(t.layers, stsd)
  }

  function Announced(t: Track): Option<AudioFormat>
    requires TrackOk(t)
  {
    AscFormat(t.esds.asc, Rd16(t.sound[16..]))
  }

  /** The sound fields and the esds of a description. */
  lemma EntryParts(t: Track)
    requires TrackOk(t) && StsdCode(t).Some?
    ensures
      var inner := Wrapped(t.box, EsdsCode(t.esds));
      && inner.Some? && Find(Boxes(inner.value), ESDS) == Some(EsdsCode(t.esds))
      && Wrapped(Layer([], MP4A, t.wide, t.after), t.sound + inner.value).Some?
      && StsdCode(t).value == t.head + Wrapped(Layer([], MP4A, t.wide, t.after), t.sound + inner.value).value
  {
    assert t.box in [t.box];
    hide Boxes, EsdsCode, EsdsOk, Encode, Find, Wrapped, Kinds;
    WrappedFound(t.box, EsdsCode(t.esds), ESDS);
  }

  lemma BehindSound(sound: seq<byte>, inner: seq<byte>)
    requires |sound| == 28
    ensures (sound + inner)[28..] == inner && Rd16((sound + inner)[16..]) == Rd16(sound[16..])
  {
    assert (sound + inner)[16..][0] == sound[16..][0] && (sound + inner)[16..][1] == sound[16..][1];
  }

  lemma StsdReadBack(t: Track)
    requires TrackOk(t) && StsdCode(t).Some?
    ensures SoundFormat(StsdCode(t).value) == Announced(t)
  {
    EsdsReadBack(t.esds);
    EntryParts(t);
    hide Boxes, FirstBox, AscFormat, EsdsCode, EsdsOk, AudioBytes, Encode, Wrapped, Find, Kinds, First, StsdCode, SoundFormat;
    var stsd, esds := StsdCode(t).value, EsdsCode(t.esds);
    var body := t.sound + Wrapped(t.box, esds).value;
    BehindSound(t.sound, Wrapped(t.box, esds).value);
    EntryRead(t, body, stsd);
    SoundFrom(stsd, body, esds);
  }

  lemma SoundFrom(stsd: seq<byte>, body: seq<byte>, esds: seq<byte>)
    requires |stsd| >= 8 && FirstBox(stsd[8..]).Some? && FirstBox(stsd[8..]).value.0 == Box(MP4A, body)
    requires |body| >= 28 && Find(Boxes(body[28..]), ESDS) == Some(esds)
    ensures SoundFormat(stsd) == EsdsFormat(esds, Rd16(body[16..]))
  {
    hide Boxes, FirstBox, Find, EsdsFormat;
  }

  lemma EntryRead(t: Track, body: seq<byte>, stsd: seq<byte>)
    requires |t.head| == 8 && Wrapped(Layer([], MP4A, t.wide, t.after), body).Some?
    requires stsd == t.head + Wrapped(Layer([], MP4A, t.wide, t.after), body).value
    ensures |stsd| >= 8 && FirstBox(stsd[8..]).Some? && FirstBox(stsd[8..]).value.0 == Box(MP4A, body)
  {
    hide Boxes, FirstBox, Encode;
    FirstOfEncoded(Box(MP4A, body), t.wide, t.after);
    assert Written([]) == [];
    var code := Encode(Box(MP4A, body), t.wide) + t.after;
    assert [] + code == code;
    assert stsd[8..] == code;
  }

  /** A written track is read back: its format is that of its audio configuration, its number that of its header. */
  lemma TrackReadBack(past: Past, t: Track)
    requires TrackOk(t) && TrakCode(t).Some?
    ensures
      TrackOf(past, TrakCode(t).value) ==
      match Announced(t) case None => None case Some(f) => Some((f, TrackId(past, t.tkhd)))
  {
    var stsd, trak := StsdCode(t).value, TrakCode(t).value;
    StsdReadBack(t);
    NestFollowed(t.layers, stsd);
    WrappedFound(t.layers[0], Nest(t.layers[1..], stsd).value, TKHD);
    hide Boxes, Find, Follow, Wrapped, SoundFormat, Announced, StsdCode, First, EsdsOk;
  }

  // ---- the whole moov

  /** A movie: any boxes, a track, any boxes. */
  datatype Movie = Movie(pre: seq<Item>, track: Track, wide: bool, post: seq<Item>)

  predicate MovieOk(m: Movie) {
    && Fit(m.pre) && Fit(m.post) && TrackOk(m.track) && TrakCode(m.track).Some?
    && Encodable(Box(TRAK, TrakCode(m.track).value), m.wide)
  }

  function MovieBoxes(m: Movie): seq<Box>
    requires MovieOk(m)
  {
    BoxesOf(m.pre) + [Box(TRAK, TrakCode(m.track).value)] + BoxesOf(m.post)
  }

  function MovieCode(m: Movie): seq<byte>
    requires MovieOk(m)
  {
    Written(m.pre) + (Encode(Box(TRAK, TrakCode(m.track).value), m.wide) + Written(m.post))
  }

  lemma MovieIsRead(m: Movie)
    requires MovieOk(m)
    ensures Boxes(MovieCode(m)) == MovieBoxes(m)
  {
    hide Boxes, TrackOk, TrakCode, Encode, Encodable;
    var trak := Box(TRAK, TrakCode(m.track).value);
    var rest := Encode(trak, m.wide) + Written(m.post);
    BoxesReadBack(m.pre, rest);
    FirstOfEncoded(trak, m.wide, Written(m.post));
    BoxesReadBack(m.post, []);
    assert Written(m.post) + [] == Written(m.post);
    NoBoxes();
  }

  lemma NoBoxes()
    ensures Boxes([]) == []
  {
  }

  lemma TrackBetween(past: Past, pre: seq<Box>, trak: Box, post: seq<Box>)
    requires FirstTrack(past, pre).None? && trak.kind == TRAK && TrackOf(past, trak.body).Some?
    ensures FirstTrack(past, pre + [trak] + post) == TrackOf(past, trak.body)
  {
    hide TrackOf;
    assert pre + [trak] + post == pre + ([trak] + post);
    FirstTrackSplit(past, pre, [trak] + post);
    assert ([trak] + post)[0] == trak;
  }

  /** The first AAC track among them is the written one. */
  lemma MovieTrack(past: Past, m: Movie, f: AudioFormat)
    requires MovieOk(m) && Announced(m.track) == Some(f) && FirstTrack(past, BoxesOf(m.pre)).None?
    ensures FirstTrack(past, MovieBoxes(m)) == Some((f, TrackId(past, m.track.tkhd)))
  {
    TrackReadBack(past, m.track);
    hide TrackOf, TrakCode, Announced, TrackOk, Fit, Encodable, BoxesOf, TrackId, FirstTrack;
    TrackBetween(past, BoxesOf(m.pre), Box(TRAK, TrakCode(m.track).value), BoxesOf(m.post));
  }

  /** Whatever configuration came before, a moov sets format and track number to those of its first AAC track. */
  lemma MovieReadBack(past: Past, cfg: Config, m: Movie, f: AudioFormat)
    requires MovieOk(m) && Announced(m.track) == Some(f) && FirstTrack(past, BoxesOf(m.pre)).None?
    ensures
      var c := Reader(past)(cfg, MovieCode(m));
      c.format == Some(f) && c.track == TrackId(past, m.track.tkhd)
  {
    hide Boxes, MovieBoxes, MovieCode, MovieOk, TrackOk, Announced, FirstTrack, MoovConfig;
    MovieIsRead(m);
    MovieTrack(past, m, f);
    TrackExact(past, Config(None, cfg.track, 0), MovieBoxes(m));
  }

  /** The track number does not depend on what stands behind the header exactly if the header is long enough. */
  lemma TrackIdExact(tkhd: seq<byte>)
    requires |tkhd| >= 20
    ensures (forall p: Past, q: Past :: TrackId(p, tkhd) == TrackId(q, tkhd)) <==> tkhd[0] != 1 || |tkhd| >= 24
  {
    if tkhd[0] == 1 && |tkhd| < 24 {
      var p: Past, q: Past := [0, 0, 0, 0], [1, 1, 1, 1];
      assert TrackId(p, tkhd) != TrackId(q, tkhd);
    }
  }

  // ---- init segment and media segments

  /** Reads of whole ignored boxes leave everything to the last read. */
  lemma {:induction false} LastRead(rd: MoovReader, cfg: Config, groups: seq<seq<Item>>, last: seq<byte>)
    requires forall g <- groups :: AllIgnored(g)
    ensures InitReads(rd, cfg, WholeBoxes(groups, last)) == InitReads(rd, cfg, [last])
    decreases |groups|
  {
    hide Feed, Codes, AllIgnored;
    if groups != [] {
      IgnoredAreBetween(rd, cfg, groups[0]);
      var pieces := WholeBoxes(groups, last);
      assert pieces[0] == Codes(groups[0]) && pieces[1..] == WholeBoxes(groups[1..], last);
      LastRead(rd, cfg, groups[1..], last);
    }
  }

  lemma OneRead(rd: MoovReader, cfg: Config, before: seq<Item>, moov: seq<byte>)
    requires AllIgnored(before) && 0 < |moov| <= MAX_META_BOX && rd(cfg, moov).format.Some?
    ensures InitReads(rd, cfg, [Codes(before) + MoovCode(moov, false)]) == (rd(cfg, moov), true)
  {
    hide Feed, MoovCode, Codes, AllIgnored;
    AfterBoxes(rd, cfg, before, moov);
    var a := Codes(before) + MoovCode(moov, false);
    var pieces: seq<seq<byte>> := [a];
    assert pieces[1..] == [];
    assert InitReads(rd, rd(cfg, moov), []) == (rd(cfg, moov), true);
  }

  /** From this configuration an ADTS receiver recovers the samples of a muxed segment in this format. */
  ghost predicate PlaysBack(rd: MoovReader, cfg: Config, f: AudioFormat, own: nat, groups: seq<seq<seq<byte>>>)
    requires own < 0x1_0000_0000 && Groups(groups)
  {
    var r := Feed(Demuxer(rd), Reset(cfg), MuxSegment(own, groups));
    r.ok && Cut(Flatten(r.out)) == Some(Tagged(f, Flatten(groups)))
  }

  lemma PlaysFrom(rd: MoovReader, cfg: Config, f: AudioFormat, own: nat, groups: seq<seq<seq<byte>>>)
    requires cfg.format == Some(f) && own < 0x1_0000_0000 && cfg.track == own && Groups(groups)
    requires |MuxSegment(own, groups)| < 0x1_0000_0000_0000_0000
    ensures PlaysBack(rd, cfg, f, own, groups)
  {
    hide Feed, MuxSegment, Groups, Cut, Flatten;
    SamplesSurvive(rd, cfg, f, own, groups);
  }

  /**
   * A written init segment, read in pieces of whole boxes, and a muxed segment of its track: whatever configuration
   * came before, an ADTS receiver recovers exactly the muxed samples, in the announced format.
   */
  lemma WrittenPlays(past: Past, was: Config, m: Movie, f: AudioFormat, cuts: seq<seq<Item>>, before: seq<Item>,
                     groups: seq<seq<seq<byte>>>)
    requires MovieOk(m) && Announced(m.track) == Some(f) && FirstTrack(past, BoxesOf(m.pre)).None?
    requires 0 < |MovieCode(m)| <= MAX_META_BOX && AllIgnored(before) && forall g <- cuts :: AllIgnored(g)
    requires Groups(groups) && |MuxSegment(TrackId(past, m.track.tkhd), groups)| < 0x1_0000_0000_0000_0000
    ensures
      var init := Codes(before) + MoovCode(MovieCode(m), false);
      var (cfg, ok) := InitReads(Reader(past), was, WholeBoxes(cuts, init));
      ok && PlaysBack(Reader(past), cfg, f, TrackId(past, m.track.tkhd), groups)
  {
    hide PlaysBack, MoovCode, Codes, MovieCode, Announced, InitReads, Reader, FirstTrack, BoxesOf, AllIgnored;
    hide TrackId, Groups, MuxSegment, WholeBoxes, Encodable, Fit, TrakCode;
    var moov := MovieCode(m);
    MovieReadBack(past, was, m, f);
    LastRead(Reader(past), was, cuts, Codes(before) + MoovCode(moov, false));
    OneRead(Reader(past), was, before, moov);
    PlaysFrom(Reader(past), Reader(past)(was, moov), f, TrackId(past, m.track.tkhd), groups);
  }
}
