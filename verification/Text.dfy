/** C strings, the playlist lines in them, and the decimal numbers in those lines. */
module Text {
  const NUL: char := '\0'

  // ---- strings in a buffer

  /** The C string that starts at `p`. */
  function CStr(b: seq<char>, p: nat): (s: string)
    ensures |s| <= if p <= |b| then |b| - p else 0
    ensures forall i :: 0 <= i < |s| ==> s[i] == b[p + i] && s[i] != NUL
    ensures p + |s| < |b| ==> b[p + |s|] == NUL
    decreases |b| - p
  {
    if p >= |b| || b[p] == NUL then "" else [b[p]] + CStr(b, p + 1)
  }

  lemma {:induction false} CStrIs(b: seq<char>, p: nat, s: string)
    requires p + |s| < |b| && b[p..p + |s|] == s && b[p + |s|] == NUL && NUL !in s
    ensures CStr(b, p) == s
    decreases |s|
  {
    if s != "" {
      assert b[p] == b[p..p + |s|][0] == s[0] && s[0] in s;
      assert b[p + 1..p + 1 + |s[1..]|] == b[p..p + |s|][1..];
      CStrIs(b, p + 1, s[1..]);
    }
  }

  predicate StartsWith(s: string, prefix: string) {
    |prefix| <= |s| && s[..|prefix|] == prefix
  }

  predicate Contains(s: string, part: string) {
    exists i :: 0 <= i <= |s| - |part| && s[i..][..|part|] == part
  }

  // ---- lines

  /** The index of the first line feed, or the length. */
  function LineEnd(s: string): (e: nat)
    ensures e <= |s| && forall i :: 0 <= i < e ==> s[i] != '\n'
    ensures e < |s| ==> s[e] == '\n'
  {
    if s == "" || s[0] == '\n' then 0 else 1 + LineEnd(s[1..])
  }

  function AfterLine(s: string): (r: string)
    ensures s != "" ==> |r| < |s|
  {
    var e := LineEnd(s);
    if e < |s| then s[e + 1..] else ""
  }

  /** Carriage returns and spaces at the end of a line do not count. */
  function Trim(s: string): (r: string)
    ensures r <= s
  {
    if s != "" && (s[|s| - 1] == '\r' || s[|s| - 1] == ' ') then Trim(s[..|s| - 1]) else s
  }

  /** The lines next_line returns. */
  function Lines(s: string): seq<string>
    decreases |s|
  {
    if s == "" then [] else [Trim(s[..LineEnd(s)])] + Lines(AfterLine(s))
  }

  /** strchr for the line feed, or the end of the string. */
  method FindLineEnd(buf: array<char>, p: nat) returns (e: nat)
    requires p + |CStr(buf[..], p)| < buf.Length
    ensures e == p + LineEnd(CStr(buf[..], p))
  {
    ghost var s := CStr(buf[..], p);
    assert s[0..] == s;
    hide CStr;
    e := p;
    while buf[e] != NUL && buf[e] != '\n'
      invariant p <= e <= p + |s|
      invariant LineEnd(s) == e - p + LineEnd(s[e - p..])
      decreases buf.Length - e
    {
      assert s[e - p..][1..] == s[e - p + 1..];
      e := e + 1;
    }
  }

  /** Cuts trailing carriage returns and spaces off the string `buf[p..e]`, which ends at `e`. */
  method TrimInPlace(buf: array<char>, p: nat, e: nat)
    requires p <= e < buf.Length && buf[e] == NUL && NUL !in buf[p..e]
    modifies buf
    ensures CStr(buf[..], p) == Trim(old(buf[p..e]))
    ensures buf[e..] == old(buf[e..]) && buf[..p] == old(buf[..p])
  {
    hide CStr;
    ghost var line, l0 := buf[p..e], e;
    var l := e;
    assert line[..l - p] == line;
    while l > p && (buf[l - 1] == '\r' || buf[l - 1] == ' ')
      invariant p <= l <= e && buf[l] == NUL
      invariant buf[p..l] == line[..l - p] && Trim(line) == Trim(line[..l - p])
      invariant buf[e..] == old(buf[e..]) && buf[..p] == old(buf[..p])
    {
      l := l - 1;
      assert line[..l + 1 - p][..l - p] == line[..l - p];
      assert line[l - p] == buf[p..l + 1][l - p] == buf[l];
      buf[l] := NUL;
    }
    assert l > p ==> line[..l - p][l - p - 1] == buf[p..l][l - p - 1] == buf[l - 1];
    assert NUL !in line[..l - p];
    CStrIs(buf[..], p, buf[p..l]);
  }

  /** Ends the line of the string at `p` at its line feed `e`; the next one starts behind it. */
  method CutLine(buf: array<char>, p: nat, e: nat) returns (next: nat)
    requires p + |CStr(buf[..], p)| < buf.Length && e == p + LineEnd(CStr(buf[..], p))
    requires CStr(buf[..], p) != ""
    modifies buf
    ensures p < next && e <= next <= e + 1 && next + |CStr(buf[..], next)| < buf.Length && buf[e] == NUL
    ensures buf[p..e] == old(CStr(buf[..], p))[..e - p] && NUL !in buf[p..e]
    ensures CStr(buf[..], next) == AfterLine(old(CStr(buf[..], p)))
  {
    hide CStr, LineEnd;
    ghost var s, all := CStr(buf[..], p), buf[..];
    SuffixAt(all, p, e - p);
    assert s[..e - p] == buf[p..e];
    next := e;
    if buf[e] == '\n' {
      SuffixAt(all, p, e + 1 - p);
      buf[e] := NUL;
      next := e + 1;
      assert buf[next..] == all[next..];
      SameTail(all, buf[..], next);
    }
  }

  /** next_line: terminates the line at `p` in place, trims it, and moves on. */
  method NextLine(buf: array<char>, p: nat) returns (more: bool, next: nat)
    requires p + |CStr(buf[..], p)| < buf.Length
    modifies buf
    ensures more <==> old(CStr(buf[..], p)) != ""
    ensures !more ==> buf[..] == old(buf[..])
    ensures more ==> p < next && next + |CStr(buf[..], next)| < buf.Length
    ensures more ==> CStr(buf[..], p) == Trim(old(CStr(buf[..], p))[..LineEnd(old(CStr(buf[..], p)))])
    ensures more ==> CStr(buf[..], next) == AfterLine(old(CStr(buf[..], p)))
  {
    hide Trim, LineEnd, CStr;
    ghost var all := buf[..];
    if buf[p] == NUL {
      CStrIs(all, p, "");
      return false, p;
    }
    NotEmpty(all, p);
    var e := FindLineEnd(buf, p);
    next := CutLine(buf, p, e);
    ghost var cut := buf[..];
    TrimInPlace(buf, p, e);
    assert buf[next..] == buf[e..][next - e..] == cut[next..];
    SameTail(cut, buf[..], next);
    more := true;
  }

  lemma NotEmpty(b: seq<char>, p: nat)
    requires p < |b| && b[p] != NUL
    ensures CStr(b, p) != ""
  {
  }

  /** A string depends only on the buffer from its start on. */
  lemma {:induction false} SameTail(a: seq<char>, b: seq<char>, p: nat)
    requires |a| == |b| && p <= |a| && a[p..] == b[p..]
    ensures CStr(a, p) == CStr(b, p)
    decreases |a| - p
  {
    if p < |a| {
      assert a[p] == a[p..][0] == b[p..][0] == b[p];
      assert a[p + 1..] == a[p..][1..] == b[p + 1..];
      SameTail(a, b, p + 1);
    }
  }

  lemma {:induction false} SuffixAt(b: seq<char>, p: nat, n: nat)
    requires p + |CStr(b, p)| < |b|
    ensures n <= |CStr(b, p)| ==> CStr(b, p + n) == CStr(b, p)[n..]
    decreases n
  {
    if 0 < n <= |CStr(b, p)| {
      SuffixAt(b, p + 1, n - 1);
      assert CStr(b, p)[1..][n - 1..] == CStr(b, p)[n..];
    }
  }
}
