/** HTTP body decoding: chunked transfer coding (RFC 9112, section 7.1) and identity bodies. */
module Chunked {
  import opened Bytes
  import opened Machine

  const LF: byte := 10
  const CR: byte := 13
  const SEMICOLON: byte := 59

  datatype Stage = SizeStage | ExtStage | DataStage | CrlfStage | FinalStage | DoneStage

  /** The decoder between two bytes; `left` is the chunk size read so far, or the data still to come. */
  datatype State = State(stage: Stage, left: nat)

  const START := State(SizeStage, 0)

  function HexValue(b: byte): int {
    if 48 <= b <= 57 then b as int - 48
    else if 97 <= b <= 102 then b as int - 87
    else if 65 <= b <= 70 then b as int - 55
    else -1
  }

  function ChunkedByte(s: State, b: byte): Run<State, byte> {
    match s.stage
    case SizeStage =>
      if b == LF then Run(if s.left == 0 then State(FinalStage, 0) else s.(stage := DataStage), [], true)
      else if HexValue(b) >= 0 then Run(s.(left := (s.left * 16 + HexValue(b)) % 0x1_0000_0000), [], true)
      else Run(if b == SEMICOLON then s.(stage := ExtStage) else s, [], true)
    case ExtStage =>
      Run(if b != LF then s else if s.left == 0 then State(FinalStage, 0) else s.(stage := DataStage), [], true)
    case DataStage =>
      Run(if s.left <= 1 then State(CrlfStage, 0) else s.(left := s.left - 1), [b], true)
    case CrlfStage => Run(if b == LF then START else s, [], true)
    case FinalStage => Run(if b == LF then State(DoneStage, 0) else s, [], true)
    case DoneStage => Run(s, [], true)
  }

  function Decoder(): Step<State, byte, byte> {
    (s: State, b: byte) => ChunkedByte(s, b)
  }

  lemma {:induction false} DataStretch(s: State, d: seq<byte>)
    requires s.stage.DataStage? && 0 < |d| <= s.left
    ensures Feed(Decoder(), s, d) ==
            Run(if |d| == s.left then State(CrlfStage, 0) else s.(left := s.left - |d|), d, true)
    decreases |d|
  {
    hide Feed, Then;
    var last := |d| - 1;
    FeedLast(Decoder(), s, d);
    assert d == d[..last] + [d[last]];
    if last > 0 {
      DataStretch(s, d[..last]);
    } else {
      assert d[..last] == [];
      FeedNone(Decoder(), s);
    }
  }

  lemma {:induction false} DoneForever(s: State, d: seq<byte>)
    requires s.stage.DoneStage?
    ensures Feed(Decoder(), s, d) == Run(s, [], true)
    decreases |d|
  {
    if d != [] {
      DoneForever(s, d[1..]);
    }
  }

  lemma {:induction false} NeverFails(s: State, d: seq<byte>)
    ensures Feed(Decoder(), s, d).ok
    decreases |d|
  {
    if d != [] {
      NeverFails(ChunkedByte(s, d[0]).st, d[1..]);
    }
  }

  /** body_t with a callback that accepts everything. */
  class Body {
    const chunked: bool
    var cs: Stage
    var csize: nat
    var remain: int // what a plain body still announces, -1 when it announces nothing
    /** What the callback has received so far. */
    ghost var delivered: seq<byte>

    ghost predicate Valid()
      reads this
    {
      (cs == DataStage ==> csize > 0) && (cs == CrlfStage || cs == FinalStage || cs == DoneStage ==> csize == 0)
    }

    ghost function View(): State
      reads this
    {
      State(cs, csize)
    }

    constructor (isChunked: bool, length: int)
      ensures Valid() && View() == START && delivered == [] && chunked == isChunked && remain == length
    {
      chunked, cs, csize, remain, delivered := isChunked, SizeStage, 0, length, [];
    }

    /** body_feed on an identity body: exactly the announced length is delivered. */
    method FeedIdentity(d: seq<byte>) returns (done: bool)
      requires !chunked && remain >= -1
      modifies this`remain, this`delivered
      ensures var n := if 0 <= old(remain) < |d| then old(remain) else |d|;
              && delivered == old(delivered) + d[..n]
              && remain == (if old(remain) >= 0 then old(remain) - n else old(remain))
              && (done <==> remain == 0)
    {
      var n := |d|;
      if remain >= 0 && n > remain {
        n := remain;
      }
      delivered := delivered + d[..n];
      if remain >= 0 {
        remain := remain - n;
        return remain == 0;
      }
      return false;
    }

    /** One turn of body_feed's loop on a chunked body. */
    method ChunkedTurn(d: seq<byte>) returns (t: nat)
      requires Valid() && d != []
      modifies this`cs, this`csize, this`delivered
      ensures Valid() && 0 < t <= |d|
      ensures var r := Feed(Decoder(), old(View()), d[..t]);
              r == Run(View(), r.out, true) && delivered == old(delivered) + r.out
    {
      hide Feed, Then;
      assert d[..1] == [d[0]] && delivered + [] == delivered;
      FeedOne(Decoder(), View(), d[0]);
      t := 1;
      match cs {
        case SizeStage =>
          var v := HexValue(d[0]);
          if d[0] == LF {
            cs := if csize == 0 then FinalStage else DataStage;
          } else if v >= 0 {
            csize := (csize * 16 + v) % 0x1_0000_0000;
          } else if d[0] == SEMICOLON {
            cs := ExtStage;
          }
        case ExtStage =>
          if d[0] == LF {
            cs := if csize == 0 then FinalStage else DataStage;
          }
        case DataStage =>
          t := if |d| < csize then |d| else csize;
          DataStretch(View(), d[..t]);
          delivered := delivered + d[..t];
          csize := csize - t;
          if csize == 0 {
            cs := CrlfStage;
          }
        case CrlfStage =>
          if d[0] == LF {
            cs := SizeStage;
            csize := 0;
          }
        case FinalStage =>
          if d[0] == LF {
            cs := DoneStage;
          }
        case DoneStage =>
      }
    }

    /** body_feed on a chunked body; bytes after the end of the body are left alone. */
    method FeedChunked(d: seq<byte>) returns (done: bool)
      requires Valid()
      modifies this`cs, this`csize, this`delivered
      ensures Valid()
      ensures var r := Feed(Decoder(), old(View()), d);
              View() == r.st && delivered == old(delivered) + r.out
      ensures done <==> d != [] && cs == DoneStage
    {
      hide Feed, Then;
      var i: nat := 0;
      ghost var s, log: seq<byte> := View(), [];
      assert d[..0] == [];
      FeedNone(Decoder(), s);
      while i < |d|
        invariant i <= |d| && Valid() && delivered == old(delivered) + log
        invariant Feed(Decoder(), s, d[..i]) == Run(View(), log, true)
        invariant i > 0 ==> cs != DoneStage
      {
        ghost var here := View();
        var t := ChunkedTurn(d[i..]);
        assert d[..i + t] == d[..i] + d[i..][..t];
        FeedThen(Decoder(), s, d[..i], Run(here, log, true), d[i..][..t]);
        log := log + Feed(Decoder(), here, d[i..][..t]).out;
        i := i + t;
        if cs == DoneStage {
          assert d == d[..i] + d[i..] && log + [] == log;
          DoneForever(View(), d[i..]);
          FeedThen(Decoder(), s, d[..i], Run(View(), log, true), d[i..]);
          return true;
        }
      }
      assert d[..i] == d;
      done := false;
    }
  }

  // ---- identity bodies

  /** What an identity body with announced length `length` delivers of some bytes; -1 announces nothing. */
  function Share(length: int, d: seq<byte>): seq<byte> {
    if 0 <= length < |d| then d[..length] else d
  }

  /**
   * An identity body read in pieces of any size: exactly the announced length is delivered, and its end is reported
   * with the first piece that reaches it; without an announced length everything is, and the end is never reported.
   */
  method ReadIdentity(b: Body, pieces: seq<seq<byte>>) returns (n: nat, done: bool)
    requires !b.chunked && b.remain >= -1 && b.delivered == []
    modifies b
    ensures b.delivered == Share(old(b.remain), Flatten(pieces))
    ensures done <==> pieces != [] && 0 <= old(b.remain) <= |Flatten(pieces)|
    ensures n <= |pieces| && (!done ==> n == |pieces|)
    ensures done ==> n > 0 && |Flatten(pieces[..n])| >= old(b.remain)
    ensures done ==> |Flatten(pieces[..n - 1])| < old(b.remain) || (n == 1 && old(b.remain) == 0)
  {
    hide Flatten;
    n, done := 0, false;
    ghost var length := b.remain;
    assert pieces[..0] == [];
    FlattenNone<byte>();
    while n < |pieces| && !done
      invariant n <= |pieces| && b.remain >= -1
      invariant b.delivered == Share(length, Flatten(pieces[..n]))
      invariant length < 0 ==> b.remain == length
      invariant length >= 0 ==> b.remain == length - |b.delivered|
      invariant done <==> n > 0 && length >= 0 && b.remain == 0
      invariant done ==> n > 0 && (|Flatten(pieces[..n - 1])| < length || (n == 1 && length == 0))
    {
      ghost var soFar := Flatten(pieces[..n]);
      done := b.FeedIdentity(pieces[n]);
      assert pieces[..n + 1] == pieces[..n] + [pieces[n]] && pieces[..n + 1][..n] == pieces[..n];
      FlattenConcat(pieces[..n], [pieces[n]]);
      FlattenOne(pieces[n]);
      ShareMore(length, soFar, pieces[n]);
      n := n + 1;
    }
    assert pieces == pieces[..n] + pieces[n..] && (n == |pieces| ==> pieces[..n] == pieces);
    FlattenConcat(pieces[..n], pieces[n..]);
    ShareMore(length, Flatten(pieces[..n]), Flatten(pieces[n..]));
  }

  lemma ShareMore(length: int, d: seq<byte>, more: seq<byte>)
    ensures
      var left := if length < 0 then |more| else length - |Share(length, d)|;
      left >= 0 && Share(length, d + more) == Share(length, d) + (if left < |more| then more[..left] else more)
  {
    if 0 <= length < |d| {
      assert (d + more)[..length] == d[..length] + more[..0];
    } else if 0 <= length < |d + more| {
      assert (d + more)[..length] == d + more[..length - |d|];
    }
  }

  // ---- the encoder, and the proof that the decoder undoes it

  /** A chunk as a sender may write it: hexadecimal digits in either case, blanks, an extension, the data. */
  datatype Chunk = Chunk(digits: seq<byte>, blanks: seq<byte>, ext: seq<byte>, data: seq<byte>)

  predicate IsBlank(b: byte) { b == 32 || b == 9 }

  function SizeOf(digits: seq<byte>): nat
    requires forall i :: 0 <= i < |digits| ==> HexValue(digits[i]) >= 0
  {
    if digits == [] then 0 else SizeOf(digits[..|digits| - 1]) * 16 + HexValue(digits[|digits| - 1])
  }

  /** The size is written out in full; an extension starts with a semicolon and stays on its line. */
  predicate ChunkOk(k: Chunk) {
    && (forall i :: 0 <= i < |k.digits| ==> HexValue(k.digits[i]) >= 0)
    && SizeOf(k.digits) == |k.data| < 0x1_0000_0000
    && (forall i :: 0 <= i < |k.blanks| ==> IsBlank(k.blanks[i]))
    && (k.ext != [] ==> k.ext[0] == SEMICOLON && forall i :: 0 <= i < |k.ext| ==> k.ext[i] != LF)
  }

  function SizeLine(k: Chunk): seq<byte> { k.digits + k.blanks + (k.ext + [CR, LF]) }

  function Code(k: Chunk): seq<byte> { SizeLine(k) + k.data + [CR, LF] }

  /** Non-empty chunks, the last chunk and the final CRLF. */
  function Encode(ks: seq<Chunk>, last: Chunk): seq<byte> {
    if ks == [] then SizeLine(last) + [CR, LF] else Code(ks[0]) + Encode(ks[1..], last)
  }

  function Data(ks: seq<Chunk>): seq<byte> {
    if ks == [] then [] else ks[0].data + Data(ks[1..])
  }

  lemma {:induction false} Digits(digits: seq<byte>)
    requires forall i :: 0 <= i < |digits| ==> HexValue(digits[i]) >= 0
    requires SizeOf(digits) < 0x1_0000_0000
    ensures Feed(Decoder(), START, digits) == Run(State(SizeStage, SizeOf(digits)), [], true)
    decreases |digits|
  {
    hide Feed, Then;
    if digits == [] {
      FeedNone(Decoder(), START);
    } else {
      Digits(digits[..|digits| - 1]);
      FeedLast(Decoder(), START, digits);
    }
  }

  lemma {:induction false} Extension(n: nat, ext: seq<byte>)
    requires forall i :: 0 <= i < |ext| ==> ext[i] != LF
    ensures Feed(Decoder(), State(ExtStage, n), ext) == Run(State(ExtStage, n), [], true)
    decreases |ext|
  {
    if ext != [] {
      Extension(n, ext[1..]);
    }
  }

  lemma LineEnd(s: State)
    requires s.stage.SizeStage? || s.stage.ExtStage?
    ensures Feed(Decoder(), s, [CR, LF]) ==
            Run(if s.left == 0 then State(FinalStage, 0) else State(DataStage, s.left), [], true)
  {
    hide Feed, Then;
    assert [CR] + [LF] == [CR, LF];
    FeedOne(Decoder(), s, CR);
    FeedQuiet(Decoder(), s, [CR], s, [LF]);
    FeedOne(Decoder(), s, LF);
  }

  lemma {:induction false} Blanks(n: nat, blanks: seq<byte>)
    requires forall i :: 0 <= i < |blanks| ==> IsBlank(blanks[i])
    ensures Feed(Decoder(), State(SizeStage, n), blanks) == Run(State(SizeStage, n), [], true)
    decreases |blanks|
  {
    if blanks != [] {
      Blanks(n, blanks[1..]);
    }
  }

  /** The end of a size line, with an extension or without. */
  lemma ExtensionEnds(n: nat, ext: seq<byte>)
    requires ext != [] ==> ext[0] == SEMICOLON && forall i :: 0 <= i < |ext| ==> ext[i] != LF
    ensures
      Feed(Decoder(), State(SizeStage, n), ext + [CR, LF]) ==
      Run(if n == 0 then State(FinalStage, 0) else State(DataStage, n), [], true)
  {
    hide Feed, Then;
    if ext == [] {
      assert ext + [CR, LF] == [CR, LF];
      LineEnd(State(SizeStage, n));
    } else {
      var rest := ext[1..];
      assert ext == [SEMICOLON] + rest;
      FeedOne(Decoder(), State(SizeStage, n), SEMICOLON);
      FeedQuiet(Decoder(), State(SizeStage, n), [SEMICOLON], State(ExtStage, n), rest);
      Extension(n, rest);
      FeedQuiet(Decoder(), State(SizeStage, n), ext, State(ExtStage, n), [CR, LF]);
      LineEnd(State(ExtStage, n));
    }
  }

  lemma ReadSizeLine(k: Chunk)
    requires ChunkOk(k)
    ensures Feed(Decoder(), START, SizeLine(k)) ==
            Run(if k.data == [] then State(FinalStage, 0) else State(DataStage, |k.data|), [], true)
  {
    hide Feed, Then, SizeOf;
    var sized := State(SizeStage, |k.data|);
    Digits(k.digits);
    Blanks(|k.data|, k.blanks);
    FeedQuiet(Decoder(), START, k.digits, sized, k.blanks);
    FeedQuiet(Decoder(), START, k.digits + k.blanks, sized, k.ext + [CR, LF]);
    ExtensionEnds(|k.data|, k.ext);
  }

  lemma ReadChunk(k: Chunk)
    requires ChunkOk(k) && k.data != []
    ensures Feed(Decoder(), START, Code(k)) == Run(START, k.data, true)
  {
    hide Feed, Then;
    var data, crlf := State(DataStage, |k.data|), State(CrlfStage, 0);
    ReadSizeLine(k);
    assert Code(k) == SizeLine(k) + (k.data + [CR, LF]);
    FeedQuiet(Decoder(), START, SizeLine(k), data, k.data + [CR, LF]);
    DataStretch(data, k.data);
    FeedThen(Decoder(), data, k.data, Run(crlf, k.data, true), [CR, LF]);
    assert [CR] + [LF] == [CR, LF] && k.data + [] == k.data;
    FeedOne(Decoder(), crlf, CR);
    FeedQuiet(Decoder(), crlf, [CR], crlf, [LF]);
    FeedOne(Decoder(), crlf, LF);
  }

  /** Everything but the last byte of the final CRLF. */
  lemma ReadEnd(last: Chunk)
    requires ChunkOk(last) && last.data == []
    ensures Feed(Decoder(), START, SizeLine(last) + [CR]) == Run(State(FinalStage, 0), [], true)
    ensures Feed(Decoder(), START, SizeLine(last) + [CR, LF]) == Run(State(DoneStage, 0), [], true)
  {
    hide Feed, Then, ChunkOk;
    var fin := State(FinalStage, 0);
    ReadSizeLine(last);
    FeedQuiet(Decoder(), START, SizeLine(last), fin, [CR]);
    FeedQuiet(Decoder(), START, SizeLine(last), fin, [CR, LF]);
    assert [CR] + [LF] == [CR, LF];
    FeedOne(Decoder(), fin, CR);
    FeedQuiet(Decoder(), fin, [CR], fin, [LF]);
    FeedOne(Decoder(), fin, LF);
  }

  /** Decoding undoes encoding, and the body is complete only with its very last byte. */
  lemma {:induction false} DecodeUndoesEncode(ks: seq<Chunk>, last: Chunk)
    requires (forall k :: k in ks ==> ChunkOk(k) && k.data != []) && ChunkOk(last) && last.data == []
    ensures var code := Encode(ks, last);
            && |code| > 0
            && Feed(Decoder(), START, code) == Run(State(DoneStage, 0), Data(ks), true)
            && Feed(Decoder(), START, code[..|code| - 1]) == Run(State(FinalStage, 0), Data(ks), true)
    decreases |ks|
  {
    hide Feed, Then, Code, SizeLine, ChunkOk;
    var code := Encode(ks, last);
    if ks == [] {
      ReadEnd(last);
      assert code[..|code| - 1] == SizeLine(last) + [CR];
    } else {
      var rest := Encode(ks[1..], last);
      DecodeUndoesEncode(ks[1..], last);
      ReadChunk(ks[0]);
      FeedThen(Decoder(), START, Code(ks[0]), Run(START, ks[0].data, true), rest);
      FeedThen(Decoder(), START, Code(ks[0]), Run(START, ks[0].data, true), rest[..|rest| - 1]);
      assert code[..|code| - 1] == Code(ks[0]) + rest[..|rest| - 1];
    }
  }

  /** No proper part of the body counts as the whole. */
  lemma NotDoneEarly(ks: seq<Chunk>, last: Chunk, n: nat)
    requires (forall k :: k in ks ==> ChunkOk(k) && k.data != []) && ChunkOk(last) && last.data == []
    requires n < |Encode(ks, last)|
    ensures !Feed(Decoder(), START, Encode(ks, last)[..n]).st.stage.DoneStage?
  {
    hide Feed, Then, ChunkOk, Encode;
    var code := Encode(ks, last);
    DecodeUndoesEncode(ks, last);
    var part, rest := code[..n], code[n..|code| - 1];
    assert code[..|code| - 1] == part + rest;
    NeverFails(START, part);
    var s := Feed(Decoder(), START, part).st;
    FeedThen(Decoder(), START, part, Feed(Decoder(), START, part), rest);
    if s.stage.DoneStage? {
      DoneForever(s, rest);
    }
  }

  /**
   * A chunked body read in pieces of any size: the callback receives exactly the data, and completion
   * is reported with the piece that holds the last byte of the final CRLF, not before.
   */
  method ReadBody(b: Body, pieces: seq<seq<byte>>, ghost ks: seq<Chunk>, ghost last: Chunk) returns (n: nat, done: bool)
    requires b.chunked && b.View() == START && b.Valid() && b.delivered == []
    requires (forall k :: k in ks ==> ChunkOk(k) && k.data != []) && ChunkOk(last) && last.data == []
    requires Flatten(pieces) == Encode(ks, last) && forall p :: p in pieces ==> p != []
    modifies b
    ensures done && n == |pieces| && b.delivered == Data(ks)
  {
    hide Feed, Then, ChunkOk, Encode, Flatten;
    n, done := 0, false;
    ghost var code := Encode(ks, last);
    DecodeUndoesEncode(ks, last);
    assert pieces[..0] == [];
    FlattenNone<byte>();
    FeedNone(Decoder(), START);
    while n < |pieces| && !done
      invariant n <= |pieces| && b.Valid()
      invariant Feed(Decoder(), START, Flatten(pieces[..n])) == Run(b.View(), b.delivered, true)
      invariant done <==> n == |pieces| && n > 0
      invariant b.cs == DoneStage ==> n == |pieces|
    {
      ghost var here := Run(b.View(), b.delivered, true);
      done := b.FeedChunked(pieces[n]);
      assert pieces[..n + 1] == pieces[..n] + [pieces[n]] && pieces == pieces[..n + 1] + pieces[n + 1..];
      FlattenConcat(pieces[..n], [pieces[n]]);
      FlattenConcat(pieces[..n + 1], pieces[n + 1..]);
      FlattenOne(pieces[n]);
      NeverFails(here.st, pieces[n]);
      FeedThen(Decoder(), START, Flatten(pieces[..n]), here, pieces[n]);
      n := n + 1;
      assert pieces[n - 1] in pieces;
      if n < |pieces| {
        assert pieces[n] in pieces;
        FlattenFirst(pieces[n..]);
        ghost var soFar := |Flatten(pieces[..n])|;
        assert |Flatten(pieces[n..])| > 0;
        assert soFar < |code| && code[..soFar] == Flatten(pieces[..n]);
        NotDoneEarly(ks, last, soFar);
      } else {
        assert pieces[..n] == pieces;
      }
    }
    assert pieces[..n] == pieces;
  }
}
