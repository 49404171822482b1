/** m3u8 playlists (RFC 8216): what analyze finds in them, and the tail-only refresh of splice_tail. */
module Playlist {
  import opened Text

  // ---- decimal numbers, as strtoll, strtoul and snprintf treat them

  predicate IsDigit(c: char) { '0' <= c <= '9' }

  predicate IsSpace(c: char) { c == ' ' || '\t' <= c <= '\r' }

  function SkipSpace(s: string): string {
    if s != "" && IsSpace(s[0]) then SkipSpace(s[1..]) else s
  }

  /** Continues `acc` with the leading digits of a string. */
  function Leading(s: string, acc: nat): nat {
    if s != "" && IsDigit(s[0]) then Leading(s[1..], acc * 10 + (s[0] - '0') as int) else acc
  }

  function Signed(s: string): int {
    var t := SkipSpace(s);
    if t != "" && t[0] == '-' then 0 - Leading(t[1..], 0)
    else if t != "" && t[0] == '+' then Leading(t[1..], 0)
    else Leading(t, 0)
  }

  /** strtoll saturates. */
  function StrToLL(s: string): int {
    var n := Signed(s);
    if n > 0x7FFF_FFFF_FFFF_FFFF then 0x7FFF_FFFF_FFFF_FFFF
    else if n < -0x8000_0000_0000_0000 then -0x8000_0000_0000_0000 else n
  }

  /** A 32-bit strtoul saturates at the top and negates modulo 2^32. */
  function StrToUL(s: string): nat {
    var n := Signed(s);
    if n > 0xFFFF_FFFF || n < -0xFFFF_FFFF then 0xFFFF_FFFF else n % 0x1_0000_0000
  }

  function Decimal(n: nat): (s: string)
    ensures s != "" && forall c :: c in s ==> IsDigit(c)
  {
    var d := ['0' + (n % 10) as char];
    if n < 10 then d else Decimal(n / 10) + d
  }

  function SignedDecimal(n: int): string {
    if n < 0 then "-" + Decimal(-n) else Decimal(n)
  }

  lemma {:induction false} LeadingAppend(a: string, b: string, acc: nat)
    requires forall c :: c in a ==> IsDigit(c)
    ensures Leading(a + b, acc) == Leading(b, Leading(a, acc))
    decreases |a|
  {
    if a == "" {
      assert a + b == b;
    } else {
      assert (a + b)[1..] == a[1..] + b && a[0] in a;
      LeadingAppend(a[1..], b, acc * 10 + (a[0] - '0') as int);
    }
  }

  lemma {:induction false} DecimalReadBack(n: nat)
    ensures Leading(Decimal(n), 0) == n
  {
    var d := ['0' + (n % 10) as char];
    assert d[1..] == "" && (d[0] - '0') as int == n % 10;
    if n >= 10 {
      DecimalReadBack(n / 10);
      LeadingAppend(Decimal(n / 10), d, 0);
      assert Leading(d, n / 10) == Leading("", n / 10 * 10 + n % 10);
    } else {
      assert Leading(d, 0) == Leading("", n);
    }
  }

  lemma SignedReadBack(n: int)
    ensures Signed(SignedDecimal(n)) == n
  {
    DecimalReadBack(if n < 0 then -n else n);
    var s := SignedDecimal(n);
    assert n < 0 ==> s[1..] == Decimal(-n);
    assert n >= 0 ==> s[0] in s;
  }

  // ---- analyze

  const URL_MAX := 1024

  /** What fits a URL buffer of 1024 bytes. */
  function Clip(s: string): string { if |s| < URL_MAX then s else s[..URL_MAX - 1] }

  datatype Info = Info(master: bool, endlist: bool, unsupported: bool, target: nat, mediaSeq: int, nseg: nat,
                       variant: string, variantAudio: bool)

  datatype Scan = Scan(info: Info, pendVariant: bool, pendAudio: bool, haveVariant: bool)

  const EMPTY_SCAN := Scan(Info(false, false, false, 0, 0, 0, "", false), false, false, false)

  const TARGET := "#EXT-X-TARGETDURATION:"
  const SEQUENCE := "#EXT-X-MEDIA-SEQUENCE:"
  const ENDLIST := "#EXT-X-ENDLIST"
  const STREAM := "#EXT-X-STREAM-INF:"
  const KEY := "#EXT-X-KEY:"
  const RANGE := "#EXT-X-BYTERANGE:"
  const EXTINF := "#EXTINF"
  const MAP := "#EXT-X-MAP:"
  const DISCONTINUITY := "#EXT-X-DISCONTINUITY"

  predicate IsTag(line: string) { line != "" && line[0] == '#' }

  function ScanTag(a: Scan, line: string): Scan {
    var i := a.info;
    if StartsWith(line, TARGET) then a.(info := i.(target := StrToUL(line[|TARGET|..])))
    else if StartsWith(line, SEQUENCE) then a.(info := i.(mediaSeq := StrToLL(line[|SEQUENCE|..])))
    else if line == ENDLIST then a.(info := i.(endlist := true))
    else if StartsWith(line, STREAM) then
      a.(info := i.(master := true), pendVariant := true, pendAudio := !Contains(line, "RESOLUTION="))
    else if StartsWith(line, KEY) then
      if Contains(line, "METHOD=NONE") then a else a.(info := i.(unsupported := true))
    else if StartsWith(line, RANGE) then a.(info := i.(unsupported := true))
    else if StartsWith(line, EXTINF) then a.(info := i.(nseg := i.nseg + 1))
    else a
  }

  /** The first variant is taken, and replaced once by an audio-only one. */
  function ScanVariant(a: Scan, line: string): Scan {
    var b := a.(pendVariant := false);
    if !a.haveVariant || (a.pendAudio && !a.info.variantAudio) then
      b.(info := a.info.(variant := Clip(line), variantAudio := a.pendAudio), haveVariant := true)
    else b
  }

  function ScanLine(a: Scan, line: string): Scan {
    if IsTag(line) then ScanTag(a, line)
    else if line != "" && a.pendVariant then ScanVariant(a, line)
    else a
  }

  function ScanLines(a: Scan, lines: seq<string>): Scan
    decreases |lines|
  {
    if lines == [] then a else ScanLines(ScanLine(a, lines[0]), lines[1..])
  }

  function Analysis(text: string): Info { ScanLines(EMPTY_SCAN, Lines(text)).info }

  /** analyze: splits the text in place while it reads the tags. */
  method Analyze(buf: array<char>) returns (info: Info)
    requires |CStr(buf[..], 0)| < buf.Length
    modifies buf
    ensures info == Analysis(old(CStr(buf[..], 0)))
  {
    hide CStr, ScanLine, LineEnd, Trim;
    var a, p: nat := EMPTY_SCAN, 0;
    ghost var rest := CStr(buf[..], 0);
    while true
      invariant p + |rest| < buf.Length && rest == CStr(buf[..], p)
      invariant ScanLines(a, Lines(rest)) == ScanLines(EMPTY_SCAN, Lines(old(CStr(buf[..], 0))))
      decreases |rest|
    {
      var more, next := NextLine(buf, p);
      if !more {
        break;
      }
      a := ScanLine(a, CStr(buf[..], p));
      p := next;
      rest := AfterLine(rest);
    }
    info := a.info;
  }

  /** Tags that only describe segments leave the playlist's numbering alone. */
  predicate Plain(line: string) {
    !StartsWith(line, TARGET) && !StartsWith(line, SEQUENCE) && !StartsWith(line, STREAM)
  }

  lemma {:induction false} ScanConcat(a: Scan, x: seq<string>, y: seq<string>)
    ensures ScanLines(a, x + y) == ScanLines(ScanLines(a, x), y)
    decreases |x|
  {
    if x == [] {
      assert x + y == y;
    } else {
      assert (x + y)[1..] == x[1..] + y;
      ScanConcat(ScanLine(a, x[0]), x[1..], y);
    }
  }

  /** The number of EXTINF tags in some lines. */
  function Infs(lines: seq<string>): nat {
    if lines == [] then 0 else (if StartsWith(lines[0], EXTINF) then 1 else 0) + Infs(lines[1..])
  }

  lemma {:induction false} ScanCounts(a: Scan, lines: seq<string>)
    ensures ScanLines(a, lines).info.nseg == a.info.nseg + Infs(lines)
    decreases |lines|
  {
    if lines != [] {
      ScanCounts(ScanLine(a, lines[0]), lines[1..]);
      InfIsNothingElse(lines[0]);
    }
  }

  lemma InfIsNothingElse(line: string)
    ensures StartsWith(line, EXTINF) ==>
            IsTag(line) && !StartsWith(line, TARGET) && !StartsWith(line, SEQUENCE) && line != ENDLIST
            && !StartsWith(line, STREAM) && !StartsWith(line, KEY) && !StartsWith(line, RANGE)
  {
    NotBoth(line, EXTINF, TARGET, 4);
    NotBoth(line, EXTINF, SEQUENCE, 4);
    NotBoth(line, EXTINF, ENDLIST, 4);
    NotBoth(line, EXTINF, STREAM, 4);
    NotBoth(line, EXTINF, KEY, 4);
    NotBoth(line, EXTINF, RANGE, 4);
    if StartsWith(line, EXTINF) {
      assert line[0] == line[..7][0];
    }
  }

  /** Two tags that differ somewhere do not start the same line. */
  lemma NotBoth(line: string, a: string, b: string, i: nat)
    requires i < |a| && i < |b| && a[i] != b[i]
    ensures !(StartsWith(line, a) && StartsWith(line, b))
  {
    if StartsWith(line, a) {
      assert line[i] == line[..|a|][i] == a[i];
      assert |b| <= |line| ==> line[..|b|][i] == line[i];
    }
  }

  lemma PlainTag(a: Scan, line: string)
    requires Plain(line)
    ensures ScanTag(a, line).info.mediaSeq == a.info.mediaSeq && ScanTag(a, line).info.target == a.info.target
  {
    hide StartsWith, Contains, StrToUL, StrToLL;
    if StartsWith(line, KEY) || StartsWith(line, RANGE) || StartsWith(line, EXTINF) {
    } else if line == ENDLIST {
    } else {
      assert ScanTag(a, line).info == a.info;
    }
  }

  lemma PlainLine(a: Scan, line: string)
    requires Plain(line)
    ensures ScanLine(a, line).info.mediaSeq == a.info.mediaSeq && ScanLine(a, line).info.target == a.info.target
  {
    PlainTag(a, line);
    hide ScanTag, Plain, Clip, IsTag;
  }

  lemma {:induction false} PlainKeepsNumbering(a: Scan, lines: seq<string>)
    requires forall l :: l in lines ==> Plain(l)
    ensures ScanLines(a, lines).info.mediaSeq == a.info.mediaSeq
    ensures ScanLines(a, lines).info.target == a.info.target
    decreases |lines|
  {
    hide Plain, ScanLine;
    if lines != [] {
      assert lines[0] in lines;
      PlainLine(a, lines[0]);
      assert forall l :: l in lines[1..] ==> l in lines;
      PlainKeepsNumbering(ScanLine(a, lines[0]), lines[1..]);
    }
  }
}
