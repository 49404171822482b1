/** Base64: the resumable, line-wrapping encoder of main/cencode.c and the bounded one of main/ota.c. */
module Base64 {
  import opened Bytes
  import opened Machine

  const UPPER := "ABCDEFGHIJKLMNOPQRSTUVWXYZ"
  const LOWER := "abcdefghijklmnopqrstuvwxyz"
  const OTHERS := "0123456789+/"
  const ALPHABET := UPPER + LOWER + OTHERS
  const PAD := '='
  const NUL := '\0'
  const LINE_BYTES := 54

  /** Table 1 of RFC 4648. */
  function Sym(v: nat): char
    requires v < 64
  {
    if v < 26 then ('A' as int + v) as char
    else if v < 52 then ('a' as int + v - 26) as char
    else if v < 62 then ('0' as int + v - 52) as char
    else if v == 62 then '+'
    else '/'
  }

  /** The number a character stands for, -1 for one outside the alphabet. */
  function Value(c: char): int {
    if 'A' <= c <= 'Z' then c as int - 'A' as int
    else if 'a' <= c <= 'z' then c as int - 'a' as int + 26
    else if '0' <= c <= '9' then c as int - '0' as int + 52
    else if c == '+' then 62
    else if c == '/' then 63
    else -1
  }

  lemma ValueOfSym(v: nat)
    requires v < 64
    ensures Value(Sym(v)) == v && Sym(v) != PAD && Sym(v) != '\n'
  {
  }

  function EncodeValue(v: nat): char {
    if v > 63 then PAD else ALPHABET[v]
  }

  lemma AlphabetIsTable(v: nat)
    requires v < 64
    ensures EncodeValue(v) == Sym(v)
  {
    if v < 26 {
      assert ALPHABET[v] == UPPER[v];
    } else if v < 52 {
      assert ALPHABET[v] == LOWER[v - 26];
    } else {
      assert ALPHABET[v] == OTHERS[v - 52];
    }
  }

  /** A 24-bit group written with four symbols. */
  function Quad(g: nat): (q: string)
    requires g < 0x100_0000
    ensures |q| == 4
  {
    [Sym(g / 0x4_0000), Sym(g / 0x1000 % 64), Sym(g / 64 % 64), Sym(g % 64)]
  }

  function Group(a: byte, b: byte, c: byte): (g: nat)
    ensures g < 0x100_0000
  {
    0x1_0000 * (a as int) + 0x100 * (b as int) + c as int
  }

  /** Section 4 of RFC 4648. */
  function Encode(x: seq<byte>): string {
    if |x| == 0 then ""
    else if |x| == 1 then Quad(Group(x[0], 0, 0))[..2] + [PAD, PAD]
    else if |x| == 2 then Quad(Group(x[0], x[1], 0))[..3] + [PAD]
    else Quad(Group(x[0], x[1], x[2])) + Encode(x[3..])
  }

  function GroupBytes(g: nat): seq<byte>
    requires g < 0x100_0000
  {
    [g / 0x1_0000, g / 0x100 % 0x100, g % 0x100]
  }

  /** A strict decoder: four characters at a time, padding only at the very end. */
  function Decode(s: string): Option<seq<byte>> {
    if |s| == 0 then Some([])
    else if |s| < 4 || Value(s[0]) < 0 || Value(s[1]) < 0 then None
    else
      var g := 0x4_0000 * Value(s[0]) + 0x1000 * Value(s[1]);
      if |s| == 4 && s[2] == PAD && s[3] == PAD then Some(GroupBytes(g)[..1])
      else if Value(s[2]) < 0 then None
      else if |s| == 4 && s[3] == PAD then Some(GroupBytes(g + 64 * Value(s[2]))[..2])
      else if Value(s[3]) < 0 then None
      else
        match Decode(s[4..])
        case None => None
        case Some(rest) => Some(GroupBytes(g + 64 * Value(s[2]) + Value(s[3])) + rest)
  }

  lemma GroupOfSyms(g: nat)
    requires g < 0x100_0000
    ensures g == 0x4_0000 * (g / 0x4_0000) + 0x1000 * (g / 0x1000 % 64) + 64 * (g / 64 % 64) + g % 64
  {
    var h := g / 64;
    var k := h / 64;
    assert g == 64 * h + g % 64 && h == 64 * k + h % 64 && k == 64 * (k / 64) + k % 64;
    assert k == g / 0x1000 && k / 64 == g / 0x4_0000;
  }

  lemma BytesOfGroup(a: byte, b: byte, c: byte)
    ensures GroupBytes(Group(a, b, c)) == [a, b, c]
  {
    var g: int := Group(a, b, c);
    var high: int := 0x100 * (a as int) + b as int;
    assert g == 0x100 * high + c as int;
    assert g / 0x100 == high && g % 0x100 == c as int;
    assert high % 0x100 == b as int && high / 0x100 == a as int;
    assert g / 0x1_0000 == a as int;
  }

  lemma {:induction false} DecodeUndoesEncode(x: seq<byte>)
    ensures Decode(Encode(x)) == Some(x)
  {
    hide Quad, Group, GroupBytes, Decode;
    if |x| == 0 {
      DecodeNothing();
    } else if |x| < 3 {
      DecodePadded(x);
    } else {
      DecodeUndoesEncode(x[3..]);
      DecodeQuad(Group(x[0], x[1], x[2]), Encode(x[3..]), x[3..]);
      BytesOfGroup(x[0], x[1], x[2]);
      assert x == [x[0], x[1], x[2]] + x[3..];
    }
  }

  lemma DecodeNothing()
    ensures Decode("") == Some([])
  {
  }

  lemma DecodePadded(x: seq<byte>)
    requires 1 <= |x| <= 2
    ensures Decode(Encode(x)) == Some(x)
  {
    var a, b := x[0], if |x| > 1 then x[1] else 0;
    var g := Group(a, b, 0);
    var i, j, k := EncodePadded(x, b, g);
    DecodeTail(i, j, k, g);
    BytesOfGroup(a, b, 0);
    hide *;
    FirstOf(x, a, b);
  }

  lemma FirstOf(x: seq<byte>, a: byte, b: byte)
    requires 1 <= |x| <= 2 && a == x[0] && (|x| > 1 ==> b == x[1])
    ensures x == [a, b, 0][..|x|]
  {
  }

  lemma EncodePadded(x: seq<byte>, b: byte, g: nat) returns (i: nat, j: nat, k: nat)
    requires 1 <= |x| <= 2 && b == (if |x| > 1 then x[1] else 0) && g == Group(x[0], b, 0)
    ensures i < 64 && j < 64 && k < 64
    ensures g == 0x4_0000 * i + 0x1000 * j + 64 * k && (|x| == 1 ==> k == 0)
    ensures Encode(x) == if |x| == 1 then [Sym(i), Sym(j), PAD, PAD] else [Sym(i), Sym(j), Sym(k), PAD]
  {
    PaddedGroup(x[0], b, g);
    i, j, k := g / 0x4_0000, g / 0x1000 % 64, g / 64 % 64;
    hide Group, Sym;
  }

  lemma DecodeTail(i: nat, j: nat, k: nat, g: nat)
    requires i < 64 && j < 64 && k < 64 && g == 0x4_0000 * i + 0x1000 * j + 64 * k
    ensures Decode([Sym(i), Sym(j), Sym(k), PAD]) == Some(GroupBytes(g)[..2])
    ensures k == 0 ==> Decode([Sym(i), Sym(j), PAD, PAD]) == Some(GroupBytes(g)[..1])
  {
    ValueOfSym(i);
    ValueOfSym(j);
    ValueOfSym(k);
    hide Sym, Value;
  }

  lemma DecodeQuad(g: nat, more: string, rest: seq<byte>)
    requires g < 0x100_0000 && Decode(more) == Some(rest)
    ensures Decode(Quad(g) + more) == Some(GroupBytes(g) + rest)
  {
    GroupOfSyms(g);
    ValueOfSym(g / 0x4_0000);
    ValueOfSym(g / 0x1000 % 64);
    ValueOfSym(g / 64 % 64);
    ValueOfSym(g % 64);
    hide Sym, Value;
    assert (Quad(g) + more)[4..] == more;
  }

  lemma PaddedGroup(a: byte, b: byte, g: nat)
    requires g == Group(a, b, 0)
    ensures
      var high := 0x4_0000 * (g / 0x4_0000) + 0x1000 * (g / 0x1000 % 64);
      g == high + 64 * (g / 64 % 64) && (b == 0 ==> g == high)
  {
    GroupOfSyms(g);
    EmptyFields(a, b, g);
    hide Group;
  }

  lemma EmptyFields(p: nat, q: nat, g: nat)
    requires g == 64 * (1024 * p + 4 * q)
    ensures g % 64 == 0 && (q == 0 ==> g / 64 % 64 == 0)
  {
    assert g / 64 == 1024 * p + 4 * q;
    if q == 0 {
      assert g / 64 == 64 * (16 * p);
    }
  }

  /** Characters of the encoding: four for every three bytes begun. */
  lemma {:induction false} EncodeLength(x: seq<byte>)
    ensures |Encode(x)| == (|x| + 2) / 3 * 4
  {
    hide Group, Quad;
    if |x| > 2 {
      EncodeLength(x[3..]);
      ThirdsUp(|x|);
    }
  }

  lemma ThirdsUp(n: nat)
    requires n >= 3
    ensures (n + 2) / 3 == (n - 3 + 2) / 3 + 1
  {
  }

  lemma {:induction false} EncodeConcat(x: seq<byte>, y: seq<byte>)
    requires |x| % 3 == 0
    ensures Encode(x + y) == Encode(x) + Encode(y)
  {
    if x == [] {
      assert x + y == y;
    } else {
      EncodeConcat(x[3..], y);
      assert (x + y)[3..] == x[3..] + y;
      var q := Quad(Group(x[0], x[1], x[2]));
      hide Quad, Group;
      assert q + Encode(x[3..]) + Encode(y) == q + (Encode(x[3..]) + Encode(y));
    }
  }

  lemma {:induction false} EncodeSymbols(x: seq<byte>)
    ensures forall k :: 0 <= k < |Encode(x)| ==> Encode(x)[k] != '\n'
  {
    if |x| > 2 {
      EncodeSymbols(x[3..]);
    }
  }

  /** A line feed after every full line of 72 characters. */
  function Lined(x: seq<byte>): string {
    if |x| >= LINE_BYTES then Encode(x[..LINE_BYTES]) + "\n" + Lined(x[LINE_BYTES..]) else Encode(x)
  }

  function WithoutLf(s: string): string {
    if s == "" then ""
    else if s[0] == '\n' then WithoutLf(s[1..])
    else [s[0]] + WithoutLf(s[1..])
  }

  lemma {:induction false} WithoutLfSkips(s: string, t: string)
    requires forall k :: 0 <= k < |s| ==> s[k] != '\n'
    ensures WithoutLf(s + t) == s + WithoutLf(t)
  {
    if s == "" {
      assert s + t == t;
    } else {
      WithoutLfSkips(s[1..], t);
      assert (s + t)[0] == s[0] && (s + t)[1..] == s[1..] + t;
      var rest := WithoutLf(t);
      assert WithoutLf(s + t) == [s[0]] + (s[1..] + rest);
    }
  }

  /** Removing the line feeds gives the RFC 4648 encoding. */
  lemma {:induction false} LinedIsEncoding(x: seq<byte>)
    ensures WithoutLf(Lined(x)) == Encode(x)
  {
    EncodeSymbols(x);
    if |x| >= LINE_BYTES {
      var head, rest := x[..LINE_BYTES], x[LINE_BYTES..];
      LinedIsEncoding(rest);
      EncodeSymbols(head);
      EncodeConcat(head, rest);
      assert x == head + rest;
      var more := "\n" + Lined(rest);
      assert Encode(head) + "\n" + Lined(rest) == Encode(head) + more;
      WithoutLfSkips(Encode(head), more);
      assert more[1..] == Lined(rest);
    } else {
      WithoutLfSkips(Encode(x), "");
      assert Encode(x) + "" == Encode(x);
    }
  }

  lemma {:induction false} LinedLength(x: seq<byte>)
    ensures |Lined(x)| == (|x| + 2) / 3 * 4 + |x| / LINE_BYTES
    decreases |x|
  {
    EncodeLength(x);
    LineArithmetic(|x|);
    if |x| >= LINE_BYTES {
      FirstLine(x);
      LinedLength(x[LINE_BYTES..]);
      hide Lined, Encode;
    } else {
      hide Encode;
    }
  }

  lemma LineArithmetic(n: nat)
    ensures n >= 54 ==> (n + 2) / 3 * 4 + n / 54 == (n - 54 + 2) / 3 * 4 + (n - 54) / 54 + 73
    ensures n < 54 ==> (n + 2) / 3 * 4 <= 72 && n / 54 == 0
  {
    if n >= 54 {
      assert (n + 2) / 3 == (n - 54 + 2) / 3 + 18;
      assert n / 54 == (n - 54) / 54 + 1;
    }
  }

  /** Line feeds are exactly the characters 73, 146, ... of the output. */
  lemma {:induction false} LineFeeds(x: seq<byte>, p: nat)
    requires p < |Lined(x)|
    ensures Lined(x)[p] == '\n' <==> p % 73 == 72
    decreases |x|
  {
    EncodeSymbols(x);
    LastLine(x);
    hide Lined, Encode;
    if |x| >= LINE_BYTES {
      FirstLine(x);
      EncodeSymbols(x[..LINE_BYTES]);
      BreakAfter(Encode(x[..LINE_BYTES]), Lined(x[LINE_BYTES..]), p);
      if p >= 73 {
        LineFeeds(x[LINE_BYTES..], p - 73);
      }
    }
  }

  lemma BreakAfter(first: string, rest: string, p: nat)
    requires |first| == 72 && p < 73 + |rest| && forall k :: 0 <= k < 72 ==> first[k] != '\n'
    ensures
      (first + "\n" + rest)[p] == '\n' <==>
      if p >= 73 then rest[p - 73] == '\n' else p % 73 == 72
    ensures p >= 73 ==> (p - 73) % 73 == p % 73
  {
    if p >= 73 {
      PreviousLine(p);
    }
  }

  lemma FirstLine(x: seq<byte>)
    requires |x| >= LINE_BYTES
    ensures |Encode(x[..LINE_BYTES])| == 72
    ensures Lined(x) == Encode(x[..LINE_BYTES]) + "\n" + Lined(x[LINE_BYTES..])
  {
    var line := x[..LINE_BYTES];
    EncodeLength(line);
    hide Encode;
    assert (|line| + 2) / 3 == 18;
  }

  lemma LastLine(x: seq<byte>)
    ensures |x| < LINE_BYTES ==> Lined(x) == Encode(x) && |Encode(x)| <= 72
  {
    EncodeLength(x);
    LineArithmetic(|x|);
    hide Encode;
  }

  lemma PreviousLine(p: nat)
    requires p >= 73
    ensures (p - 73) % 73 == p % 73
  {
  }

  datatype Stage = StepA | StepB | StepC

  /** base64_encodestate. */
  datatype State = State(step: Stage, result: nat, stepcount: nat)

  const INIT := State(StepA, 0, 0)

  /** What one byte does; the bit fields put together never overlap, so `|=` is a sum. */
  function EncodeByte(s: State, b: byte): Run<State, char> {
    var n: nat := b;
    match s.step
    case StepA => Run(State(StepB, n % 4 * 16, s.stepcount), [EncodeValue(n / 4)], true)
    case StepB => Run(State(StepC, n % 16 * 4, s.stepcount), [EncodeValue(s.result + n / 16)], true)
    case StepC =>
      var two := [EncodeValue(s.result + n / 64), EncodeValue(n % 64)];
      if s.stepcount + 1 == 18 then Run(State(StepA, n % 64, 0), two + ['\n'], true)
      else Run(State(StepA, n % 64, s.stepcount + 1), two, true)
  }

  function Encoder(): Machine.Step<State, byte, char> {
    (s: State, b: byte) => EncodeByte(s, b)
  }

  /** base64_encode_blockend: the padding and a final NUL. */
  function Ending(s: State): string {
    match s.step
    case StepA => [NUL]
    case StepB => [EncodeValue(s.result), PAD, PAD, NUL]
    case StepC => [EncodeValue(s.result), PAD, NUL]
  }

  /** The first symbols of an incomplete group. */
  function Begun(x: seq<byte>): string
    requires |x| < 3
  {
    if |x| == 0 then ""
    else if |x| == 1 then Quad(Group(x[0], 0, 0))[..1]
    else Quad(Group(x[0], x[1], 0))[..2]
  }

  /** What has been written after `x`. */
  function Written(x: seq<byte>): string {
    if |x| >= LINE_BYTES then Encode(x[..LINE_BYTES]) + "\n" + Written(x[LINE_BYTES..])
    else
      var whole := |x| - |x| % 3;
      Encode(x[..whole]) + Begun(x[whole..])
  }

  /** The state after `x` depends on the length and the last byte. */
  function Reached(x: seq<byte>): State {
    var last: nat := if x == [] then 0 else x[|x| - 1];
    var count := |x| % LINE_BYTES / 3;
    match |x| % 3
    case 0 => State(StepA, last % 64, count)
    case 1 => State(StepB, last % 4 * 16, count)
    case _ => State(StepC, last % 16 * 4, count)
  }

  lemma GroupSplit(a: byte, b: byte, c: byte)
    ensures
      var g: int, p: int, q: int, r: int := Group(a, b, c), a, b, c;
      && g / 0x4_0000 == p / 4 && g / 0x1000 % 64 == p % 4 * 16 + q / 16
      && g / 64 % 64 == q % 16 * 4 + r / 64 && g % 64 == r % 64
  {
    var g: int, p: int, q: int, r: int := Group(a, b, c), a, b, c;
    assert g == 64 * (1024 * p + 4 * q + r / 64) + r % 64;
    var top := 1024 * p + 4 * q + r / 64;
    assert top == 64 * (16 * p + q / 16) + (q % 16 * 4 + r / 64);
    var high := 16 * p + q / 16;
    assert high == 64 * (p / 4) + (p % 4 * 16 + q / 16);
    assert g / 64 == top && top / 64 == high && high / 64 == p / 4;
    assert g / 0x1000 == high && g / 0x4_0000 == p / 4;
  }

  /** The four symbols of a group in terms of the bit fields the encoder handles. */
  lemma QuadFields(a: byte, b: byte, c: byte)
    ensures
      var p: nat, q: nat, r: nat := a, b, c;
      Quad(Group(a, b, c)) ==
      [EncodeValue(p / 4), EncodeValue(p % 4 * 16 + q / 16), EncodeValue(q % 16 * 4 + r / 64), EncodeValue(r % 64)]
  {
    var p: nat, q: nat, r: nat := a, b, c;
    GroupSplit(a, b, c);
    AlphabetIsTable(p / 4);
    AlphabetIsTable(p % 4 * 16 + q / 16);
    AlphabetIsTable(q % 16 * 4 + r / 64);
    AlphabetIsTable(r % 64);
    hide EncodeValue, Sym, Group;
  }

  /** The symbols of a group, and of one that has only begun. */
  lemma BegunFields(a: byte, b: byte, c: byte)
    ensures
      var p: nat, q: nat, r: nat := a, b, c;
      var first, second := EncodeValue(p / 4), EncodeValue(p % 4 * 16 + q / 16);
      && Begun([a]) == [first] && Begun([a, b]) == [first, second]
      && Quad(Group(a, b, c)) == [first, second, EncodeValue(q % 16 * 4 + r / 64), EncodeValue(r % 64)]
  {
    hide EncodeValue, Quad, Group;
    QuadFields(a, b, c);
    QuadFields(a, b, 0);
    QuadFields(a, 0, 0);
  }

  lemma Thirds(m: nat, r: nat)
    requires m < 18 && r < 3
    ensures (3 * m + r) % 3 == r && (3 * m + r) % 54 == 3 * m + r && (3 * m + r) / 3 == m
  {
  }

  /** Within a line, split after its last whole group. */
  lemma WrittenInLine(w: seq<byte>, t: seq<byte>, m: nat)
    requires |w| == 3 * m && |t| < 3 && m < 18
    ensures Written(w + t) == Encode(w) + Begun(t)
  {
    hide Encode, Begun;
    var x := w + t;
    assert x[..|w|] == w && x[|w|..] == t;
    Thirds(m, |t|);
    assert |x| - |x| % 3 == |w|;
  }

  lemma ReachedInLine(w: seq<byte>, t: seq<byte>, m: nat)
    requires |w| == 3 * m && |t| < 3 && m < 18
    ensures Reached(w + t).stepcount == m
    ensures |t| == 0 ==> Reached(w + t).step == StepA
    ensures |t| == 1 ==> Reached(w + t) == State(StepB, t[0] as nat % 4 * 16, m)
    ensures |t| == 2 ==> Reached(w + t) == State(StepC, t[1] as nat % 16 * 4, m)
  {
    Thirds(m, |t|);
    if |t| > 0 {
      assert (w + t)[|w + t| - 1] == t[|t| - 1];
    }
  }

  lemma WrittenLine(x: seq<byte>)
    requires |x| == LINE_BYTES
    ensures Written(x) == Encode(x) + "\n"
  {
    assert x[..LINE_BYTES] == x && x[LINE_BYTES..] == [];
    WrittenInLine([], [], 0);
    BegunNothing();
    assert Encode([]) == "";
    assert [] + [] == x[LINE_BYTES..];
    hide Encode, Begun;
  }

  /** One byte inside a line. */
  lemma InLineStep(w: seq<byte>, t: seq<byte>, m: nat, b: byte)
    requires |w| == 3 * m && |t| < 3 && m < 18
    ensures Written(w + t + [b]) == Written(w + t) + EncodeByte(Reached(w + t), b).out
  {
    WrittenInLine(w, t, m);
    if |t| < 2 {
      WrittenInLine(w, t + [b], m);
      assert w + (t + [b]) == w + t + [b];
      BegunStep(w, t, m, b);
    } else {
      GroupStep(w, t, m, b);
    }
    hide *;
  }

  lemma BegunStep(w: seq<byte>, t: seq<byte>, m: nat, b: byte)
    requires |w| == 3 * m && |t| < 2 && m < 18
    ensures Encode(w) + Begun(t + [b]) == Encode(w) + Begun(t) + EncodeByte(Reached(w + t), b).out
  {
    hide Encode, EncodeByte, Reached, Begun;
    ReachedInLine(w, t, m);
    if |t| == 0 {
      assert t + [b] == [b] && t == [];
      FirstOfGroup(Reached(w + t), b);
    } else {
      assert t == [t[0]] && t + [b] == [t[0], b];
      SecondOfGroup(t[0], b, m);
    }
  }

  lemma FirstOfGroup(s: State, b: byte)
    requires s.step == StepA
    ensures Begun([b]) == Begun([]) + EncodeByte(s, b).out
  {
    hide EncodeValue, Quad, Group, Begun;
    BegunFields(b, 0, 0);
    BegunNothing();
  }

  lemma SecondOfGroup(a: byte, b: byte, m: nat)
    ensures Begun([a, b]) == Begun([a]) + EncodeByte(State(StepB, a as nat % 4 * 16, m), b).out
  {
    hide EncodeValue, Quad, Group, Begun;
    BegunFields(a, b, 0);
  }

  lemma GroupStep(w: seq<byte>, t: seq<byte>, m: nat, b: byte)
    requires |w| == 3 * m && |t| == 2 && m < 18
    ensures Written(w + t + [b]) == Encode(w) + Begun(t) + EncodeByte(Reached(w + t), b).out
  {
    hide Encode, EncodeValue, Quad, Group, Begun, Written, Reached;
    var g := [t[0], t[1], b];
    BegunFields(t[0], t[1], b);
    ReachedInLine(w, t, m);
    assert t == [t[0], t[1]];
    assert w + t + [b] == w + g;
    EncodeConcat(w, g);
    EncodeTriple(g);
    if m + 1 == 18 {
      WrittenLine(w + g);
    } else {
      WrittenInLine(w + g, [], m + 1);
      BegunNothing();
      assert w + g + [] == w + g;
    }
  }

  lemma EncodeTriple(g: seq<byte>)
    requires |g| == 3
    ensures Encode(g) == Quad(Group(g[0], g[1], g[2]))
  {
  }

  lemma BegunNothing()
    ensures Begun([]) == ""
  {
  }

  /** The state after one more byte in a line. */
  lemma ReachedStep(w: seq<byte>, t: seq<byte>, m: nat, b: byte)
    requires |w| == 3 * m && |t| < 3 && m < 18
    ensures Reached(w + t + [b]) == EncodeByte(Reached(w + t), b).st
  {
    hide Reached, EncodeByte;
    ReachedInLine(w, t, m);
    if |t| < 2 {
      ReachedInLine(w, t + [b], m);
      assert w + (t + [b]) == w + t + [b] && (t + [b])[|t|] == b;
      GroupGoesOn(Reached(w + t), b);
    } else {
      ReachedGroup(w + t + [b], m);
      GroupEnds(Reached(w + t), b);
    }
  }

  lemma GroupGoesOn(s: State, b: byte)
    ensures s.step == StepA ==> EncodeByte(s, b).st == State(StepB, b as nat % 4 * 16, s.stepcount)
    ensures s.step == StepB ==> EncodeByte(s, b).st == State(StepC, b as nat % 16 * 4, s.stepcount)
  {
    hide EncodeValue;
  }

  lemma GroupEnds(s: State, b: byte)
    ensures
      s.step == StepC ==>
        EncodeByte(s, b).st == State(StepA, b as nat % 64, if s.stepcount + 1 == 18 then 0 else s.stepcount + 1)
  {
    hide EncodeValue;
  }

  lemma ReachedGroup(x: seq<byte>, m: nat)
    requires |x| == 3 * (m + 1) && m < 18
    ensures Reached(x) == State(StepA, x[|x| - 1] as nat % 64, if m + 1 == 18 then 0 else m + 1)
  {
    if m + 1 < 18 {
      Thirds(m + 1, 0);
    }
  }

  /** What the encoder has written and where it stands after any input: lines, whole groups, a begun group. */
  lemma {:induction false} WrittenStep(x: seq<byte>, b: byte)
    ensures Written(x + [b]) == Written(x) + EncodeByte(Reached(x), b).out
    ensures Reached(x + [b]) == EncodeByte(Reached(x), b).st
  {
    hide Encode, Begun, EncodeByte;
    if |x| >= LINE_BYTES {
      var head, rest := x[..LINE_BYTES], x[LINE_BYTES..];
      WrittenStep(rest, b);
      assert (x + [b])[..LINE_BYTES] == head && (x + [b])[LINE_BYTES..] == rest + [b];
      LaterLine(x, b);
    } else {
      var m := |x| / 3;
      var w, t := x[..3 * m], x[3 * m..];
      assert x == w + t;
      InLineStep(w, t, m, b);
      ReachedStep(w, t, m, b);
    }
  }

  lemma PreviousBytes(n: nat)
    requires n >= 54
    ensures (n - 54) % 54 == n % 54 && (n - 54) % 3 == n % 3
  {
  }

  /** A full line leaves no trace in what happens next. */
  lemma LaterLine(x: seq<byte>, b: byte)
    requires |x| >= LINE_BYTES
    ensures EncodeByte(Reached(x), b) == EncodeByte(Reached(x[LINE_BYTES..]), b)
    ensures Reached(x + [b]) == Reached(x[LINE_BYTES..] + [b])
    ensures Ending(Reached(x)) == Ending(Reached(x[LINE_BYTES..]))
  {
    hide EncodeValue;
    PreviousBytes(|x|);
    PreviousBytes(|x| + 1);
  }

  /** base64_encode_block over any input from the initial state. */
  lemma {:induction false} EncoderWrites(x: seq<byte>)
    ensures Feed(Encoder(), INIT, x) == Run(Reached(x), Written(x), true)
    decreases |x|
  {
    hide Feed, Then, Written, Reached, EncodeByte;
    if x == [] {
      FeedNone(Encoder(), INIT);
      assert Reached([]) == INIT && Written([]) == [] by {
        ReachedNothing();
      }
    } else {
      var last := |x| - 1;
      EncoderWrites(x[..last]);
      FeedLast(Encoder(), INIT, x);
      WrittenStep(x[..last], x[last]);
      assert x == x[..last] + [x[last]];
      NeverGivesUp(Reached(x[..last]), x[last]);
    }
  }

  lemma ReachedNothing()
    ensures Reached([]) == INIT && Written([]) == []
  {
    WrittenInLine([], [], 0);
    BegunNothing();
    assert Encode([]) == "";
  }

  lemma NeverGivesUp(s: State, b: byte)
    ensures EncodeByte(s, b).ok && EncodeByte(s, b).out != []
  {
  }

  /** base64_encode_blockend completes the last group. */
  lemma {:induction false} EndingCompletes(x: seq<byte>)
    ensures Written(x) + Ending(Reached(x)) == Lined(x) + [NUL]
  {
    hide Encode, Begun, Ending, Reached;
    if |x| >= LINE_BYTES {
      EndingCompletes(x[LINE_BYTES..]);
      LaterLine(x, 0);
      var line, w := Encode(x[..LINE_BYTES]) + "\n", Written(x[LINE_BYTES..]);
      assert line + w + Ending(Reached(x)) == line + (w + Ending(Reached(x)));
      assert line + (Lined(x[LINE_BYTES..]) + [NUL]) == Lined(x) + [NUL];
    } else {
      var m := |x| / 3;
      var w, t := x[..3 * m], x[3 * m..];
      assert x == w + t;
      WrittenInLine(w, t, m);
      EncodeConcat(w, t);
      LastGroup(w, t, m);
    }
  }

  lemma LastGroup(w: seq<byte>, t: seq<byte>, m: nat)
    requires |w| == 3 * m && |t| < 3 && m < 18
    ensures Encode(w) + Begun(t) + Ending(Reached(w + t)) == Encode(w) + Encode(t) + [NUL]
  {
    ReachedInLine(w, t, m);
    EncodeShortGroup(t);
    hide Encode, EncodeValue, Quad, Group, Reached, Begun;
  }

  lemma EncodeShortGroup(t: seq<byte>)
    requires |t| < 3
    ensures |t| == 0 ==> Encode(t) == Begun(t) == ""
    ensures |t| == 1 ==> Encode(t) == Begun(t) + [EncodeValue(t[0] as nat % 4 * 16), PAD, PAD]
    ensures |t| == 2 ==> Encode(t) == Begun(t) + [EncodeValue(t[1] as nat % 16 * 4), PAD]
  {
    if |t| == 0 {
      assert Encode(t) == Begun(t) == "";
    } else {
      hide Encode, Begun, EncodeValue;
      if |t| == 1 {
        assert t == [t[0]];
        EncodeOne(t[0]);
      } else {
        assert t == [t[0], t[1]];
        EncodeTwo(t[0], t[1]);
      }
    }
  }

  lemma EncodeOne(a: byte)
    ensures Encode([a]) == Begun([a]) + [EncodeValue(a as nat % 4 * 16), PAD, PAD]
  {
    BegunFields(a, 0, 0);
    var q := Quad(Group(a, 0, 0));
    assert Encode([a]) == q[..2] + [PAD, PAD];
    hide *;
    assert q[..2] == [q[0]] + [q[1]];
  }

  lemma EncodeTwo(a: byte, b: byte)
    ensures Encode([a, b]) == Begun([a, b]) + [EncodeValue(b as nat % 16 * 4), PAD]
  {
    BegunFields(a, b, 0);
    var q := Quad(Group(a, b, 0));
    assert Encode([a, b]) == q[..3] + [PAD];
    hide *;
    assert q[..3] == [q[0], q[1]] + [q[2]];
  }

  /** An encoder with its code_out buffer. */
  class Base64Encoder {
    var step: Stage
    var result: nat
    var stepcount: nat

    ghost function View(): State
      reads this
    {
      State(step, result, stepcount)
    }

    constructor ()
      ensures View() == INIT
    {
      step, result, stepcount := StepA, 0, 0;
    }

    /** The loop body between two reads of the input: where the switch enters depends on `step`. */
    method TakeByte(b: byte, code: array<char>, at: nat) returns (codechar: nat)
      requires at + |EncodeByte(View(), b).out| <= code.Length
      modifies this, code
      ensures View() == EncodeByte(old(View()), b).st
      ensures codechar == at + |EncodeByte(old(View()), b).out|
      ensures code[at..codechar] == EncodeByte(old(View()), b).out
      ensures code[..at] == old(code[..at]) && code[codechar..] == old(code[codechar..])
    {
      hide EncodeValue;
      var n: nat := b;
      match step {
        case StepA =>
          result := n / 4;
          code[at] := EncodeValue(result);
          codechar, result, step := at + 1, n % 4 * 16, StepB;
        case StepB =>
          result := result + n / 16;
          code[at] := EncodeValue(result);
          codechar, result, step := at + 1, n % 16 * 4, StepC;
        case StepC =>
          result := result + n / 64;
          code[at] := EncodeValue(result);
          result := n % 64;
          code[at + 1] := EncodeValue(result);
          codechar, step, stepcount := at + 2, StepA, stepcount + 1;
          if stepcount == 18 {
            code[codechar] := '\n';
            codechar, stepcount := codechar + 1, 0;
          }
      }
    }

    method EncodeBlock(plain: seq<byte>, code: array<char>, at: nat) returns (codechar: nat)
      requires at + |Feed(Encoder(), View(), plain).out| <= code.Length
      modifies this, code
      ensures View() == Feed(Encoder(), old(View()), plain).st
      ensures codechar == at + |Feed(Encoder(), old(View()), plain).out|
      ensures code[at..codechar] == Feed(Encoder(), old(View()), plain).out
      ensures code[..at] == old(code[..at])
    {
      hide Feed, Then, EncodeByte;
      ghost var s := View();
      codechar := at;
      FeedNone(Encoder(), s);
      var i := 0;
      while i < |plain|
        invariant 0 <= i <= |plain| && at <= codechar <= code.Length
        invariant Feed(Encoder(), s, plain[..i]) == Run(View(), code[at..codechar], true)
        invariant code[..at] == old(code[..at])
      {
        TakesRoom(s, plain, i);
        ghost var done := code[at..codechar];
        var from := codechar;
        codechar := TakeByte(plain[i], code, from);
        assert code[at..from] == code[..from][at..];
        assert code[at..codechar] == done + code[from..codechar];
        i := i + 1;
      }
      assert plain[..i] == plain;
    }

    method EncodeBlockEnd(code: array<char>, at: nat) returns (codechar: nat)
      requires at + |Ending(View())| <= code.Length
      modifies code
      ensures codechar == at + |Ending(View())| && code[at..codechar] == Ending(View())
      ensures code[..at] == old(code[..at])
    {
      hide EncodeValue;
      codechar := at;
      match step {
        case StepB =>
          code[at], code[at + 1], code[at + 2] := EncodeValue(result), PAD, PAD;
          codechar := at + 3;
        case StepC =>
          code[at], code[at + 1] := EncodeValue(result), PAD;
          codechar := at + 2;
        case StepA =>
      }
      code[codechar] := NUL;
      codechar := codechar + 1;
    }
  }

  lemma TakesRoom(s: State, plain: seq<byte>, i: nat)
    requires i < |plain|
    ensures
      var r := Feed(Encoder(), s, plain[..i]);
      r.ok ==>
        var b := EncodeByte(r.st, plain[i]);
        && Feed(Encoder(), s, plain[..i + 1]) == Run(b.st, r.out + b.out, true)
        && |r.out| + |b.out| <= |Feed(Encoder(), s, plain).out|
  {
    hide Feed, EncodeByte;
    var r := Feed(Encoder(), s, plain[..i]);
    assert plain[..i + 1] == plain[..i] + [plain[i]];
    assert plain == plain[..i + 1] + plain[i + 1..];
    FeedSplit(Encoder(), s, plain[..i], [plain[i]]);
    FeedOne(Encoder(), r.st, plain[i]);
    NeverGivesUp(r.st, plain[i]);
    FeedSplit(Encoder(), s, plain[..i + 1], plain[i + 1..]);
  }

  lemma PieceFits(done: seq<byte>, piece: seq<byte>, rest: seq<byte>)
    ensures
      var r := Feed(Encoder(), Reached(done), piece);
      && r.st == Reached(done + piece) && Written(done) + r.out == Written(done + piece)
      && |Written(done + piece)| <= |Written(done + piece + rest)|
  {
    EncoderWrites(done);
    EncoderWrites(done + piece);
    EncoderWrites(done + piece + rest);
    FeedSplit(Encoder(), INIT, done, piece);
    FeedSplit(Encoder(), INIT, done + piece, rest);
    hide Feed, Written, Reached;
  }

  /** However the input is cut into blocks, the output is the same lined encoding and a NUL. */
  method EncodePieces(pieces: seq<seq<byte>>, code: array<char>) returns (len: nat)
    requires (|Flatten(pieces)| + 2) / 3 * 4 + |Flatten(pieces)| / LINE_BYTES + 1 <= code.Length
    modifies code
    ensures len == (|Flatten(pieces)| + 2) / 3 * 4 + |Flatten(pieces)| / LINE_BYTES + 1
    ensures code[..len] == Lined(Flatten(pieces)) + [NUL]
  {
    hide Feed, Flatten, Written, Reached, Ending, Lined;
    ghost var all := Flatten(pieces);
    LinedLength(all);
    EndingCompletes(all);
    var state := new Base64Encoder();
    len := 0;
    FlattenNone<byte>();
    ReachedNothing();
    var i := 0;
    while i < |pieces|
      invariant 0 <= i <= |pieces| && len <= code.Length
      invariant state.View() == Reached(Flatten(pieces[..i]))
      invariant code[..len] == Written(Flatten(pieces[..i]))
      invariant fresh(state)
    {
      ghost var done := Flatten(pieces[..i]);
      FlattenOn(pieces, i);
      PieceFits(done, pieces[i], Flatten(pieces[i + 1..]));
      var from := len;
      len := state.EncodeBlock(pieces[i], code, from);
      assert code[..len] == code[..from] + code[from..len];
      i := i + 1;
    }
    assert pieces[..i] == pieces;
    var from := len;
    len := state.EncodeBlockEnd(code, from);
    assert code[..len] == code[..from] + code[from..len];
  }

  lemma FlattenOn(pieces: seq<seq<byte>>, i: nat)
    requires i < |pieces|
    ensures Flatten(pieces[..i + 1]) == Flatten(pieces[..i]) + pieces[i]
    ensures Flatten(pieces) == Flatten(pieces[..i]) + pieces[i] + Flatten(pieces[i + 1..])
  {
    hide Flatten;
    var front, back := pieces[..i], pieces[i + 1..];
    FlattenConcat(front, [pieces[i]]);
    FlattenOne(pieces[i]);
    assert pieces[..i + 1] == front + [pieces[i]];
    FlattenConcat(pieces[..i + 1], back);
    assert pieces == pieces[..i + 1] + back;
  }

  /** Characters of an encoding that the bounded encoder can place in `outlen` cells. */
  function Placed(n: nat, outlen: nat): nat
    requires outlen > 0
  {
    var quads, room := (n + 2) / 3, (outlen - 1) / 4;
    4 * if quads <= room then quads else room
  }

  /** After `k` whole groups only an incomplete one can be left. */
  lemma PlacedCount(n: nat, k: nat, outlen: nat)
    requires 3 * k <= n < 3 * k + 3 && outlen > 0
    ensures
      var quads, room := if n == 3 * k then k else k + 1, (outlen - 1) / 4;
      Placed(n, outlen) == 4 * if quads <= room then quads else room
  {
    assert (n + 2) / 3 == if n == 3 * k then k else k + 1;
  }

  /** The whole encoding is placed exactly when it and the NUL fit. */
  lemma CompleteIffFits(x: seq<byte>, outlen: nat)
    requires outlen > 0
    ensures Placed(|x|, outlen) == |Encode(x)| <==> (|x| + 2) / 3 * 4 < outlen
  {
    EncodeLength(x);
    hide Encode;
  }

  lemma QuadAt(x: seq<byte>, k: nat)
    requires 3 * k < |x|
    ensures
      && |Encode(x)| >= 4 * k + 4
      && Encode(x)[..4 * k + 4] == Encode(x)[..4 * k] + Encode(x[3 * k..])[..4]
  {
    hide Encode;
    var front, back := x[..3 * k], x[3 * k..];
    assert x == front + back;
    EncodeConcat(front, back);
    EncodeLength(front);
    EncodeLength(back);
    assert (3 * k + 2) / 3 == k && (|back| + 2) / 3 >= 1;
    TakeOn(Encode(front), Encode(back));
  }

  lemma TakeOn(e: string, f: string)
    requires |f| >= 4
    ensures (e + f)[..|e| + 4] == (e + f)[..|e|] + f[..4]
  {
  }

  /** The last, incomplete group of base64_encode_short, if there is one and it fits. */
  method PlaceLast(input: seq<byte>, i: nat, ghost k: nat, out: array<char>, o: nat) returns (o': nat)
    requires i == 3 * k && i <= |input| < i + 3 && o == 4 * if k <= (out.Length - 1) / 4 then k else (out.Length - 1) / 4
    requires o < out.Length && o <= |Encode(input)| && out[..o] == Encode(input)[..o]
    modifies out
    ensures o <= o' == Placed(|input|, out.Length) < out.Length && o' <= |Encode(input)|
    ensures out[..o'] == Encode(input)[..o'] && forall j :: o' <= j < out.Length ==> out[j] == old(out[j])
  {
    hide Encode, Quad, Placed, Group;
    o' := o;
    PlacedCount(|input|, k, out.Length);
    if i < |input| {
      var two := i + 1 < |input|;
      var val := Group(input[i], if two then input[i + 1] else 0, 0);
      if o + 4 < out.Length {
        var q := Quad(val);
        FirstQuad(input[i..]);
        PlaceNext(input, k, out, o, if two then q[..3] + [PAD] else q[..2] + [PAD, PAD]);
        o' := o + 4;
      }
    }
  }

  /** base64_encode_short of main/ota.c: whole groups while they fit, then a NUL. */
  method EncodeShort(input: seq<byte>, out: array<char>)
    requires out.Length > 0
    modifies out
    ensures
      var placed := Placed(|input|, out.Length);
      && placed < out.Length && placed <= |Encode(input)|
      && out[..placed] == Encode(input)[..placed] && out[placed] == NUL
      && out[placed + 1..] == old(out[placed + 1..])
  {
    hide Encode, Quad, Placed, Group;
    ghost var before := out[..];
    ghost var k, room := 0, (out.Length - 1) / 4;
    var i: nat, o: nat := 0, 0;
    EncodeLength(input);
    while i + 2 < |input|
      invariant i == 3 * k && i <= |input| && o == 4 * if k <= room then k else room
      invariant o < out.Length && o <= |Encode(input)|
      invariant out[..o] == Encode(input)[..o]
      invariant forall j :: o <= j < out.Length ==> out[j] == before[j]
    {
      var val := Group(input[i], input[i + 1], input[i + 2]);
      if o + 4 < out.Length {
        FirstQuad(input[i..]);
        PlaceNext(input, k, out, o, Quad(val));
        o := o + 4;
      }
      i, k := i + 3, k + 1;
    }
    o := PlaceLast(input, i, k, out, o);
    out[o] := NUL; // o is below outlen here: the other branch of the source never runs
    assert out[o + 1..] == before[o + 1..];
  }

  lemma FirstQuad(x: seq<byte>)
    requires |x| > 0
    ensures |Encode(x)| >= 4
    ensures
      Encode(x)[..4] ==
      var q := Quad(Group(x[0], if |x| > 1 then x[1] else 0, if |x| > 2 then x[2] else 0));
      if |x| == 1 then q[..2] + [PAD, PAD] else if |x| == 2 then q[..3] + [PAD] else q
  {
    hide Quad, Group;
  }

  /** Four more characters of the encoding. */
  method PlaceNext(ghost x: seq<byte>, ghost k: nat, out: array<char>, o: nat, q: string)
    requires o == 4 * k && 3 * k < |x| && o + 4 <= out.Length
    requires |Encode(x[3 * k..])| >= 4 && q == Encode(x[3 * k..])[..4]
    requires o <= |Encode(x)| && out[..o] == Encode(x)[..o]
    modifies out
    ensures o + 4 <= |Encode(x)| && out[..o + 4] == Encode(x)[..o + 4]
    ensures forall j :: o + 4 <= j < out.Length ==> out[j] == old(out[j])
  {
    hide Encode;
    QuadAt(x, k);
    out[o], out[o + 1], out[o + 2], out[o + 3] := q[0], q[1], q[2], q[3];
  }
}
