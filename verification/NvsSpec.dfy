/** The page format of boards/nvs_partition_gen.py (version 2, not encrypted) and a reader for its images. */
module NvsSpec {
  import opened Bytes

  const PAGE_SIZE := 4096
  const MAX_ENTRIES := 126
  const SLOT := 32
  const BLOB_DATA := 0x42
  const BLOB_IDX := 0x48
  const CHUNK_ANY := 0xFF

  /** A 32-byte header and the slots of data behind it. */
  datatype Cells = Cells(header: seq<byte>, body: seq<byte>)

  /** The header's span counts its own slot and those of the body. */
  predicate EntryOk(e: Cells) {
    |e.header| == SLOT && e.header[2] > 0 && |e.body| == SLOT * (e.header[2] as nat - 1)
  }

  type Entry = e: Cells | EntryOk(e) witness Cells(seq(32, _ => 1), [])

  function Span(e: Entry): (n: nat)
    ensures n > 0 && |e.body| == SLOT * (n - 1)
  {
    e.header[2]
  }

  function Slots(es: seq<Entry>): nat {
    if es == [] then 0 else Slots(es[..|es| - 1]) + Span(es[|es| - 1])
  }

  function Layout(es: seq<Entry>): (s: seq<byte>)
    ensures |s| == SLOT * Slots(es)
  {
    if es == [] then [] else Layout(es[..|es| - 1]) + (es[|es| - 1].header + es[|es| - 1].body)
  }

  function Fill(b: byte, n: nat): (s: seq<byte>)
    ensures |s| == n && forall k :: 0 <= k < n ==> s[k] == b
  {
    seq(n, _ => b)
  }

  /** Four entry states of two bits: an empty slot is 3, a written one 2. */
  function MarkByte(written: nat): byte
    requires written <= 4
  {
    [0xFF, 0xFE, 0xFA, 0xEA, 0xAA][written]
  }

  function MarksAt(used: nat, j: nat): byte {
    if used <= 4 * j then MarkByte(0) else if used >= 4 * j + 4 then MarkByte(4) else MarkByte(used - 4 * j)
  }

  /** The bitmap of a page whose first `used` slots are written. */
  function BitmapOf(used: nat): (s: seq<byte>)
    ensures |s| == 32
  {
    seq(32, j requires 0 <= j => MarksAt(used, j))
  }

  function EntryState(bitmap: seq<byte>, k: nat): nat
    requires |bitmap| == 32 && k < 128
  {
    var b: nat := bitmap[k / 4];
    if k % 4 == 0 then b % 4 else if k % 4 == 1 then b / 4 % 4 else if k % 4 == 2 then b / 16 % 4 else b / 64
  }

  /** The bitmap marks exactly the used slots. */
  lemma BitmapMarks(used: nat, k: nat)
    requires k < 128
    ensures EntryState(BitmapOf(used), k) == if k < used then 2 else 3
  {
    var j := k / 4;
    assert BitmapOf(used)[j] == MarksAt(used, j);
  }

  /** A page in memory: its bytes agree with the entries it is meant to hold, the rest is blank. */
  predicate PageOk(buf: seq<byte>, bitmap: seq<byte>, used: nat, es: seq<Entry>) {
    && |buf| == PAGE_SIZE
    && used == Slots(es) <= MAX_ENTRIES
    && bitmap == BitmapOf(used) && buf[32..64] == bitmap
    && buf[64..] == Layout(es) + Fill(0xFF, SLOT * (MAX_ENTRIES - used))
  }

  /** The slots from `at` on as an entry, when the header there announces them. */
  function CellsAt(buf: seq<byte>, at: nat, span: nat): Entry
    requires 0 < span && at + SLOT * span <= |buf| && buf[at + 2] as nat == span
  {
    assert buf[at..at + SLOT][2] == buf[at + 2];
    Cells(buf[at..at + SLOT], buf[at + SLOT..at + SLOT * span])
  }

  /** Reads the entries of a page from slot `i` on, as its bitmap and spans direct. */
  function Walk(buf: seq<byte>, i: nat): seq<Entry>
    requires |buf| == PAGE_SIZE
    decreases MAX_ENTRIES - i
  {
    if i >= MAX_ENTRIES || EntryState(buf[32..64], i) != 2 then []
    else
      var at := 64 + SLOT * i;
      var span: nat := buf[at + 2];
      if span == 0 || i + span > MAX_ENTRIES then [] else [CellsAt(buf, at, span)] + Walk(buf, i + span)
  }

  lemma SlotsSnoc(es: seq<Entry>, e: Entry)
    ensures Slots(es + [e]) == Slots(es) + Span(e)
    ensures Layout(es + [e]) == Layout(es) + (e.header + e.body)
  {
    assert (es + [e])[..|es|] == es;
  }

  lemma {:induction false} SlotsConcat(xs: seq<Entry>, ys: seq<Entry>)
    ensures Slots(xs + ys) == Slots(xs) + Slots(ys)
    ensures Layout(xs + ys) == Layout(xs) + Layout(ys)
  {
    if ys == [] {
      assert xs + ys == xs;
    } else {
      var most, last := ys[..|ys| - 1], ys[|ys| - 1];
      SlotsConcat(xs, most);
      ConcatStep(xs, most, last);
      hide *;
      assert ys == most + [last];
    }
  }

  lemma ConcatStep(xs: seq<Entry>, most: seq<Entry>, last: Entry)
    requires Slots(xs + most) == Slots(xs) + Slots(most) && Layout(xs + most) == Layout(xs) + Layout(most)
    ensures Slots(xs + (most + [last])) == Slots(xs) + Slots(most + [last])
    ensures Layout(xs + (most + [last])) == Layout(xs) + Layout(most + [last])
  {
    hide *;
    SlotsSnoc(most, last);
    SlotsSnoc(xs + most, last);
    assert xs + (most + [last]) == xs + most + [last];
    var p, q, r := Layout(xs), Layout(most), last.header + last.body;
    assert p + q + r == p + (q + r);
  }

  /** Where entry `n` of a page lies. */
  lemma EntryBytes(es: seq<Entry>, n: nat)
    requires n < |es|
    ensures
      var at, e := SLOT * Slots(es[..n]), es[n];
      && Slots(es[..n]) + Span(e) <= Slots(es)
      && Layout(es)[at..at + SLOT] == e.header && Layout(es)[at + SLOT..at + SLOT * Span(e)] == e.body
  {
    hide Slots, Layout, Span;
    Divide(es, n);
    var e := es[n];
    Middle(Layout(es[..n]), e.header, e.body, Layout(es[n + 1..]));
  }

  lemma Divide(es: seq<Entry>, n: nat)
    requires n < |es|
    ensures Slots(es) == Slots(es[..n]) + Span(es[n]) + Slots(es[n + 1..])
    ensures Layout(es) == Layout(es[..n]) + (es[n].header + es[n].body) + Layout(es[n + 1..])
  {
    hide *;
    var x, y := es[..n], es[n + 1..];
    assert es == x + [es[n]] + y;
    SlotsSnoc(x, es[n]);
    SlotsConcat(x + [es[n]], y);
  }

  lemma Middle<T>(p: seq<T>, x: seq<T>, y: seq<T>, q: seq<T>)
    ensures
      var s := p + (x + y) + q;
      s[|p|..|p| + |x|] == x && s[|p| + |x|..|p| + |x| + |y|] == y
  {
  }

  lemma WalkStep(buf: seq<byte>, i: nat, e: Entry)
    requires |buf| == PAGE_SIZE && i + Span(e) <= MAX_ENTRIES && EntryState(buf[32..64], i) == 2
    requires
      var at := 64 + SLOT * i;
      buf[at..at + SLOT] == e.header && buf[at + SLOT..at + SLOT * Span(e)] == e.body
    ensures Walk(buf, i) == [e] + Walk(buf, i + Span(e))
  {
    hide EntryState;
    var at := 64 + SLOT * i;
    assert buf[at + 2] == buf[at..at + SLOT][2] == e.header[2];
    WalkUnfolds(buf, i, Span(e));
    hide Walk;
  }

  lemma WalkUnfolds(buf: seq<byte>, i: nat, span: nat)
    requires |buf| == PAGE_SIZE && 0 < span && i + span <= MAX_ENTRIES && EntryState(buf[32..64], i) == 2
    requires buf[64 + SLOT * i + 2] as nat == span
    ensures Walk(buf, i) == [CellsAt(buf, 64 + SLOT * i, span)] + Walk(buf, i + span)
  {
    hide EntryState, CellsAt;
  }

  /** The reader finds exactly the entries of a page. */
  lemma {:induction false} WalkFinds(buf: seq<byte>, used: nat, es: seq<Entry>, n: nat)
    requires PageOk(buf, BitmapOf(used), used, es) && n <= |es|
    ensures Slots(es[..n]) <= used && Walk(buf, Slots(es[..n])) == es[n..]
    decreases |es| - n
  {
    hide *;
    if n == |es| {
      assert es[..n] == es && es[n..] == [];
      WalkEnds(buf, used, es);
    } else {
      WalkFinds(buf, used, es, n + 1);
      WalkNext(buf, used, es, n);
      assert [es[n]] + es[n + 1..] == es[n..];
    }
  }

  lemma WalkEnds(buf: seq<byte>, used: nat, es: seq<Entry>)
    requires PageOk(buf, BitmapOf(used), used, es)
    ensures Slots(es) == used && Walk(buf, used) == []
  {
    hide Layout, BitmapOf, EntryState, Slots;
    if used < MAX_ENTRIES {
      BitmapMarks(used, used);
    }
  }

  /** One more entry. */
  lemma WalkNext(buf: seq<byte>, used: nat, es: seq<Entry>, n: nat)
    requires PageOk(buf, BitmapOf(used), used, es) && n < |es| && Slots(es[..n + 1]) <= used
    ensures Slots(es[..n]) <= used && Walk(buf, Slots(es[..n])) == [es[n]] + Walk(buf, Slots(es[..n + 1]))
  {
    hide *;
    assert es[..n + 1] == es[..n] + [es[n]];
    PageBitmap(buf, used, es);
    SlotsSnoc(es[..n], es[n]);
    WalkMarked(buf, used, Slots(es[..n]), Span(es[n]));
    WalkOne(buf, used, es, n);
    WalkStep(buf, Slots(es[..n]), es[n]);
  }

  lemma WalkMarked(buf: seq<byte>, used: nat, i: nat, span: nat)
    requires |buf| == PAGE_SIZE && buf[32..64] == BitmapOf(used) && 0 < span && i + span <= used <= MAX_ENTRIES
    ensures EntryState(buf[32..64], i) == 2 && i + span <= MAX_ENTRIES
  {
    hide BitmapOf, EntryState;
    BitmapMarks(used, i);
  }

  lemma PageBitmap(buf: seq<byte>, used: nat, es: seq<Entry>)
    requires PageOk(buf, BitmapOf(used), used, es)
    ensures |buf| == PAGE_SIZE && used == Slots(es) <= MAX_ENTRIES && buf[32..64] == BitmapOf(used)
  {
    hide BitmapOf, Layout, Slots;
  }

  lemma WalkOne(buf: seq<byte>, used: nat, es: seq<Entry>, n: nat)
    requires PageOk(buf, BitmapOf(used), used, es) && n < |es|
    requires Slots(es[..n]) + Span(es[n]) <= used
    ensures
      var i, span := Slots(es[..n]), Span(es[n]);
      var at := 64 + SLOT * i;
      buf[at..at + SLOT] == es[n].header && buf[at + SLOT..at + SLOT * span] == es[n].body
  {
    hide BitmapOf;
    EntryBytes(es, n);
    var i, span := Slots(es[..n]), Span(es[n]);
    var at, l := SLOT * i, Layout(es);
    hide Slots, Layout, Span;
    BodySlice(buf, l, at, at + SLOT);
    BodySlice(buf, l, at + SLOT, at + SLOT * span);
  }

  lemma BodySlice(buf: seq<byte>, l: seq<byte>, from: nat, to: nat)
    requires |buf| >= 64 && l <= buf[64..] && from <= to <= |l|
    ensures buf[64 + from..64 + to] == l[from..to]
  {
    assert forall k :: from <= k < to ==> buf[64 + k] == buf[64..][k];
  }
}
