/** ADTS framing of AAC samples (ISO/IEC 13818-7, section 6.2). */
module Adts {
  import opened Bytes

  const MAX_FRAME := 8184
  const HEADER_SIZE := 7

  datatype Format = Format(profile: nat, freq: nat, chan: nat)

  /** The configurations the demuxer accepts. */
  type AudioFormat = f: Format | f.profile <= 3 && f.freq <= 12 && 1 <= f.chan <= 7
    witness Format(0, 0, 1)

  /** The seven bytes written by write_adts; the length field keeps 13 bits of `payload + 7`. */
  function AdtsHeader(f: AudioFormat, payload: nat): (h: seq<byte>)
    ensures |h| == HEADER_SIZE
  {
    var len := payload + HEADER_SIZE;
    [ 0xFF,
      0xF1,
      f.profile * 64 + f.freq * 4 + f.chan / 4 % 2,
      f.chan % 4 * 64 + len / 2048 % 4,
      len / 8 % 256,
      len % 8 * 32 + 31,
      0xFC ]
  }

  function Frame(f: AudioFormat, sample: seq<byte>): (r: seq<byte>)
    ensures |r| == HEADER_SIZE + |sample|
  {
    AdtsHeader(f, |sample|) + sample
  }

  function Frames(f: AudioFormat, samples: seq<seq<byte>>): (r: seq<seq<byte>>)
    ensures |r| == |samples|
  {
    if samples == [] then [] else [Frame(f, samples[0])] + Frames(f, samples[1..])
  }

  lemma {:induction false} FramesConcat(f: AudioFormat, a: seq<seq<byte>>, b: seq<seq<byte>>)
    ensures Frames(f, a + b) == Frames(f, a) + Frames(f, b)
  {
    if a == [] {
      assert a + b == b;
    } else {
      assert (a + b)[1..] == a[1..] + b;
      FramesConcat(f, a[1..], b);
    }
  }

  // ---- an independent receiver that only knows the ADTS layout

  function FrameLength(h: seq<byte>): nat
    requires |h| >= HEADER_SIZE
  {
    h[3] as int % 4 * 2048 + h[4] as int * 8 + h[5] as int / 32
  }

  function FormatOf(h: seq<byte>): Format
    requires |h| >= HEADER_SIZE
  {
    Format(h[2] as int / 64, h[2] as int / 4 % 16, h[2] as int % 2 * 4 + h[3] as int / 64)
  }

  /** Cuts a byte stream into (format, sample) pairs by the frame length field alone. */
  function Cut(stream: seq<byte>): Option<seq<(Format, seq<byte>)>>
    decreases |stream|
  {
    if stream == [] then Some([])
    else if |stream| < HEADER_SIZE || stream[0] != 0xFF || stream[1] as int / 16 != 15 then None
    else
      var n := FrameLength(stream);
      if n < HEADER_SIZE || n > |stream| then None
      else match Cut(stream[n..])
        case None => None
        case Some(rest) => Some([(FormatOf(stream), stream[HEADER_SIZE..n])] + rest)
  }

  function Tagged(f: Format, samples: seq<seq<byte>>): seq<(Format, seq<byte>)>
  {
    if samples == [] then [] else [(f, samples[0])] + Tagged(f, samples[1..])
  }

  /** The length field is exact for a sample of up to 8184 bytes, and for no longer one. */
  lemma HeaderLengthExact(f: AudioFormat, payload: nat)
    ensures FrameLength(AdtsHeader(f, payload)) == payload + HEADER_SIZE <==> payload <= MAX_FRAME
  {
    LengthField(f, payload);
    hide AdtsHeader, FrameLength;
  }

  lemma LengthField(f: AudioFormat, payload: nat)
    ensures FrameLength(AdtsHeader(f, payload)) == (payload + HEADER_SIZE) % 8192
  {
    var len := payload + HEADER_SIZE;
    var h := AdtsHeader(f, payload);
    assert h[3] as int == f.chan % 4 * 64 + len / 2048 % 4 && h[4] as int == len / 8 % 256 && h[5] as int == len % 8 * 32 + 31;
    hide AdtsHeader;
    TopBits(f.chan % 4, len / 2048 % 4);
    ThirteenBits(len);
  }

  lemma TopBits(chan: nat, top: nat)
    requires top < 4
    ensures (chan * 64 + top) % 4 == top
  {
  }

  lemma ThirteenBits(len: nat)
    ensures len / 2048 % 4 * 2048 + len / 8 % 256 * 8 + (len % 8 * 32 + 31) / 32 == len % 8192
  {
    var q, h := len / 8, len / 2048;
    LowThree(len % 8);
    Regrouped(len, q, h);
    assert h == 4 * (h / 4) + h % 4 && len == 8192 * (len / 8192) + len % 8192;
  }

  lemma LowThree(c: nat)
    requires c < 8
    ensures (c * 32 + 31) / 32 == c
  {
  }

  lemma Regrouped(len: nat, q: nat, h: nat)
    requires q == len / 8 && h == len / 2048
    ensures len == 2048 * h + 8 * (q % 256) + len % 8 && len / 8192 == h / 4
  {
    assert len == 8 * q + len % 8;
    assert q == 256 * (q / 256) + q % 256;
    assert q / 256 == h;
  }

  lemma FormatOfHeader(f: AudioFormat, payload: nat)
    ensures FormatOf(AdtsHeader(f, payload)) == f
  {
    var h, top := AdtsHeader(f, payload), (payload + HEADER_SIZE) / 2048 % 4;
    assert h[2] as int == f.profile * 64 + f.freq * 4 + f.chan / 4 % 2 && h[3] as int == f.chan % 4 * 64 + top;
    hide AdtsHeader;
    ThirdByte(f.profile, f.freq, f.chan / 4 % 2);
    FourthByte(f.chan % 4, top);
    assert f.chan == f.chan / 4 % 2 * 4 + f.chan % 4;
  }

  lemma ThirdByte(profile: nat, freq: nat, high: nat)
    requires freq < 16 && high < 2
    ensures var b := profile * 64 + freq * 4 + high; b / 64 == profile && b / 4 % 16 == freq && b % 2 == high
  {
    assert (profile * 64 + freq * 4 + high) / 4 == profile * 16 + freq;
  }

  lemma FourthByte(low: nat, top: nat)
    requires top < 4
    ensures (low * 64 + top) / 64 == low
  {
  }

  lemma CutFirst(f: AudioFormat, sample: seq<byte>, rest: seq<byte>)
    requires |sample| <= MAX_FRAME
    requires Cut(rest).Some?
    ensures Cut(Frame(f, sample) + rest) == Some([(f, sample)] + Cut(rest).value)
  {
    var h, stream := AdtsHeader(f, |sample|), Frame(f, sample) + rest;
    assert forall i :: 0 <= i < HEADER_SIZE ==> stream[i] == h[i];
    HeaderLengthExact(f, |sample|);
    FormatOfHeader(f, |sample|);
    var n := HEADER_SIZE + |sample|;
    assert FrameLength(stream) == FrameLength(h) == n;
    assert FormatOf(stream) == FormatOf(h) == f;
    assert stream[n..] == rest;
    assert stream[HEADER_SIZE..n] == sample;
  }

  lemma FramesFirst(f: AudioFormat, samples: seq<seq<byte>>)
    requires samples != []
    ensures Flatten(Frames(f, samples)) == Frame(f, samples[0]) + Flatten(Frames(f, samples[1..]))
  {
    assert Frames(f, samples)[1..] == Frames(f, samples[1..]);
  }

  /** The demuxer's output can be cut back into the samples and their configuration. */
  lemma {:induction false} CutUndoesFraming(f: AudioFormat, samples: seq<seq<byte>>)
    requires forall s :: s in samples ==> |s| <= MAX_FRAME
    ensures Cut(Flatten(Frames(f, samples))) == Some(Tagged(f, samples))
  {
    if samples != [] {
      hide Frame, Cut;
      CutUndoesFraming(f, samples[1..]);
      CutFirst(f, samples[0], Flatten(Frames(f, samples[1..])));
      FramesFirst(f, samples);
    }
  }
}
