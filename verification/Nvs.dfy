/** The image builder of boards/nvs_partition_gen.py: pages written in place, blobs split over them. */
module Nvs {
  import opened Bytes
  import opened NvsSpec
  import opened NvsBlobs

  const WEIGHTS := [1, 2, 4, 8, 16, 32, 64, 128]

  /** `b &= ~(1 << offset)`. */
  function ClearBit(b: byte, offset: nat): byte
    requires offset < 8
  {
    if b as nat / WEIGHTS[offset] % 2 == 1 then b as nat - WEIGHTS[offset] else b
  }

  lemma ClearsNextMark(w: nat)
    requires w < 4
    ensures ClearBit(MarkByte(w), 2 * w) == MarkByte(w + 1)
  {
    if w == 0 {
    } else if w == 1 {
    } else if w == 2 {
    } else {
    }
  }

  /** Clearing the lower bit of the next slot's state marks exactly that slot. */
  lemma MarksNext(used: nat)
    requires used < 128
    ensures
      var j := used / 4;
      BitmapOf(used)[j := ClearBit(BitmapOf(used)[j], 2 * (used % 4))] == BitmapOf(used + 1)
  {
    hide ClearBit, MarkByte;
    var j, w := used / 4, used % 4;
    ClearsNextMark(w);
    assert BitmapOf(used)[j] == MarksAt(used, j) == MarkByte(w);
    assert BitmapOf(used + 1)[j] == MarksAt(used + 1, j) == MarkByte(w + 1);
  }

  /** The first 32 bytes of a page; FULL is never written there. */
  function PageHeader(crc: Crc, pageNum: nat): (h: seq<byte>)
    ensures |h| == 32
  {
    var covered := Le32(pageNum) + [0xFE] + Fill(0xFF, 19);
    [0xFE, 0xFF, 0xFF, 0xFF] + covered + Le32(crc(covered))
  }

  class Page {
    var pageBuf: seq<byte>
    var bitmap: seq<byte>
    var entryNum: nat
    /** The entries the page is meant to hold. */
    ghost var entries: seq<Entry>

    ghost predicate Valid()
      reads this
    {
      PageOk(pageBuf, bitmap, entryNum, entries)
    }

    /** The buffer and the bitmap agree on the used slots. */
    ghost predicate Marked()
      reads `pageBuf, `bitmap, `entryNum
    {
      |pageBuf| == PAGE_SIZE && bitmap == BitmapOf(entryNum) && pageBuf[32..64] == bitmap
    }

    constructor (crc: Crc, pageNum: nat, reserved: bool)
      ensures !reserved ==> Valid() && entries == [] && pageBuf[..32] == PageHeader(crc, pageNum)
      ensures reserved ==> pageBuf == Fill(0xFF, PAGE_SIZE)
    {
      entryNum, entries := 0, [];
      bitmap := if reserved then [] else Fill(0xFF, 32);
      pageBuf := Fill(0xFF, PAGE_SIZE);
      new;
      if !reserved {
        pageBuf := PageHeader(crc, pageNum) + pageBuf[32..];
        assert bitmap == BitmapOf(0);
        assert pageBuf[32..64] == bitmap;
        assert pageBuf[64..] == Fill(0xFF, SLOT * MAX_ENTRIES);
        assert [] + Fill(0xFF, SLOT * MAX_ENTRIES) == Fill(0xFF, SLOT * MAX_ENTRIES);
      }
    }

    method WriteBitmaparray()
      requires Marked() && entryNum < 128
      modifies `bitmap, `pageBuf
      ensures bitmap == BitmapOf(entryNum + 1) && pageBuf == Splice(old(pageBuf), 32, bitmap)
    {
      var bitnum := entryNum * 2;
      var byteIdx, bitOffset := bitnum / 8, bitnum % 8;
      assert byteIdx == entryNum / 4 && bitOffset == 2 * (entryNum % 4);
      MarksNext(entryNum);
      bitmap := bitmap[byteIdx := ClearBit(bitmap[byteIdx], bitOffset)];
      pageBuf := pageBuf[..32] + bitmap + pageBuf[64..];
    }

    method WriteEntryToBuf(data: seq<byte>, entrycount: nat)
      requires Marked() && entryNum + entrycount <= MAX_ENTRIES && SLOT * entryNum + |data| <= SLOT * MAX_ENTRIES
      modifies `bitmap, `pageBuf, `entryNum
      ensures Marked() && entryNum == old(entryNum) + entrycount
      ensures pageBuf[..32] == old(pageBuf[..32])
      ensures pageBuf[64..] == Splice(old(pageBuf[64..]), SLOT * old(entryNum), data)
    {
      hide BitmapOf;
      var start := 64 + SLOT * entryNum;
      ghost var was := pageBuf;
      pageBuf := pageBuf[..start] + data + pageBuf[start + |data|..];
      assert pageBuf[32..64] == was[32..64];
      ghost var body := pageBuf[64..];
      assert body == Splice(was[64..], SLOT * entryNum, data);
      var i := 0;
      while i < entrycount
        invariant 0 <= i <= entrycount && entryNum == old(entryNum) + i
        invariant Marked() && pageBuf[..32] == was[..32] && pageBuf[64..] == body
      {
        WriteBitmaparray();
        entryNum := entryNum + 1;
        i := i + 1;
      }
    }

    /** A header and, rounded up to whole slots, the data behind it. */
    method AddEntry(header: seq<byte>, data: seq<byte>)
      requires Valid() && |header| == SLOT && header[2] as nat == 1 + DataSlots(|data|)
      requires entryNum + header[2] as nat <= MAX_ENTRIES
      modifies this
      ensures Valid() && pageBuf[..32] == old(pageBuf[..32])
      ensures entries == old(entries) + [Cells(header, data + Fill(0xFF, SLOT * DataSlots(|data|) - |data|))]
    {
      hide BitmapOf, Layout, Slots, Splice;
      ghost var was := pageBuf[64..];
      PageMarked(pageBuf, bitmap, entryNum, entries);
      WriteEntryToBuf(header, 1);
      WriteEntryToBuf(data, DataSlots(|data|));
      EntryAdded(was, entries, header, data);
      entries := entries + [Cells(header, data + Fill(0xFF, SLOT * DataSlots(|data|) - |data|))];
    }

    /** A header alone. */
    method AddHeader(header: seq<byte>)
      requires Valid() && |header| == SLOT && header[2] == 1 && entryNum < MAX_ENTRIES
      modifies this
      ensures Valid() && pageBuf[..32] == old(pageBuf[..32])
      ensures entries == old(entries) + [Cells(header, [])]
    {
      hide BitmapOf, Layout, Slots, Splice;
      ghost var was := pageBuf[64..];
      PageMarked(pageBuf, bitmap, entryNum, entries);
      WriteEntryToBuf(header, 1);
      EntryAdded(was, entries, header, []);
      SpliceNone(pageBuf[64..], SLOT * entryNum);
      assert [] + Fill(0xFF, 0) == [];
      entries := entries + [Cells(header, [])];
    }
  }

  lemma PageMarked(buf: seq<byte>, bitmap: seq<byte>, used: nat, es: seq<Entry>)
    requires PageOk(buf, bitmap, used, es)
    ensures |buf| == PAGE_SIZE && bitmap == BitmapOf(used) && buf[32..64] == bitmap && used <= MAX_ENTRIES
  {
  }

  lemma SpliceNone(f: seq<byte>, at: nat)
    requires at <= |f|
    ensures Splice(f, at, []) == f
  {
  }

  /** The body of a page after a header and its data, against the layout of the entries. */
  lemma EntryAdded(was: seq<byte>, es: seq<Entry>, header: seq<byte>, data: seq<byte>)
    requires Slots(es) <= MAX_ENTRIES && was == Layout(es) + Fill(0xFF, SLOT * (MAX_ENTRIES - Slots(es)))
    requires |header| == SLOT && header[2] as nat == 1 + DataSlots(|data|)
    requires Slots(es) + header[2] as nat <= MAX_ENTRIES
    ensures
      var n, pad := Slots(es), Fill(0xFF, SLOT * DataSlots(|data|) - |data|);
      var e := Cells(header, data + pad);
      && Slots(es + [e]) == n + 1 + DataSlots(|data|)
      && Splice(Splice(was, SLOT * n, header), SLOT * (n + 1), data) ==
         Layout(es + [e]) + Fill(0xFF, SLOT * (MAX_ENTRIES - Slots(es + [e])))
  {
    hide Layout, Slots, Splice, DataSlots;
    var pad := SLOT * DataSlots(|data|) - |data|;
    var e: Entry := Cells(header, data + Fill(0xFF, pad));
    SlotsSnoc(es, e);
    PlacedOverBlank(Layout(es), header, data, pad, SLOT * (MAX_ENTRIES - Slots(es)));
  }

  lemma PlacedOverBlank(l: seq<byte>, header: seq<byte>, data: seq<byte>, pad: nat, blank: nat)
    requires |header| + |data| + pad <= blank
    ensures
      Splice(Splice(l + Fill(0xFF, blank), |l|, header), |l| + |header|, data) ==
      l + (header + (data + Fill(0xFF, pad))) + Fill(0xFF, blank - |header| - |data| - pad)
  {
    hide Splice;
    OverBlank(l, header, blank);
    OverBlank(l + header, data, blank - |header|);
    var more := blank - |header| - |data| - pad;
    assert Fill(0xFF, pad + more) == Fill(0xFF, pad) + Fill(0xFF, more);
  }

  lemma OverBlank(l: seq<byte>, data: seq<byte>, blank: nat)
    requires |data| <= blank
    ensures Splice(l + Fill(0xFF, blank), |l|, data) == l + data + Fill(0xFF, blank - |data|)
  {
  }

  lemma FullPagesOrNone(left: nat)
    requires left % PAGE_SIZE == 0
    ensures left == 0 || left >= PAGE_SIZE
    ensures left > 0 ==> (left - PAGE_SIZE) % PAGE_SIZE == 0
  {
  }

  /** The partition under construction. */
  class NvsBuilder {
    const crc: Crc
    const inputSize: nat
    var size: nat
    var pageNum: int
    var pages: seq<Page>
    var curPage: Page
    /** The entries of every page. */
    ghost var sheets: seq<seq<Entry>>

    ghost function View(): Store
      reads `sheets, `size
    {
      Store(sheets, size)
    }

    ghost predicate Valid()
      reads this, pages
      ensures Valid() ==> View().Valid()
    {
      && View().Valid()
      && |pages| == |sheets| && curPage == pages[|pages| - 1]
      && (forall k :: 0 <= k < |pages| ==> pages[k].Valid() && pages[k].entries == sheets[k])
      && (forall k :: 0 <= k < |pages| ==> pages[k].pageBuf[..32] == PageHeader(crc, k))
      && (forall j, k :: 0 <= j < k < |pages| ==> pages[j] != pages[k])
      && PAGE_SIZE * |pages| + size == inputSize && pageNum == |pages| - 1
    }

    /** `inputSize` is the partition without the page kept in reserve. */
    constructor (crc: Crc, inputSize: nat)
      requires inputSize % PAGE_SIZE == 0 && inputSize > 0
      ensures Valid() && fresh(pages) && View() == Store([[]], inputSize - PAGE_SIZE)
      ensures this.crc == crc && this.inputSize == inputSize
    {
      this.crc, this.inputSize := crc, inputSize;
      var page := new Page(crc, 0, false);
      size, pageNum, pages, curPage, sheets := inputSize - PAGE_SIZE, 0, [page], page, [[]];
    }

    method CreateNewPage() returns (ok: bool)
      requires Valid()
      modifies this
      ensures Valid() && ok == (old(size) > 0)
      ensures ok ==> View() == old(View()).NewPage() && fresh(curPage) && pages == old(pages) + [curPage]
      ensures !ok ==> View() == old(View()) && pages == old(pages)
    {
      hide PageOk, PageHeader, Slots;
      FullPagesOrNone(size);
      if size == 0 {
        return false;
      }
      size := size - PAGE_SIZE;
      pageNum := pageNum + 1;
      var page := new Page(crc, pageNum, false);
      pages := pages + [page];
      curPage := page;
      sheets := sheets + [[]];
      assert View() == old(View()).NewPage();
      ok := true;
    }

    lemma CurrentSlots()
      requires Valid()
      ensures curPage.Valid() && curPage.entryNum == View().Used()
    {
      assert pages[|pages| - 1].Valid();
    }

    /** write_entry_to_buf for a header and its data, on the current page. */
    method AddEntry(header: seq<byte>, data: seq<byte>)
      requires Valid() && |header| == SLOT && header[2] as nat == 1 + DataSlots(|data|)
      requires View().Used() + header[2] as nat <= MAX_ENTRIES
      modifies this`sheets, pages
      ensures Valid()
      ensures View() == old(View()).Append(Cells(header, data + Fill(0xFF, SLOT * DataSlots(|data|) - |data|)))
    {
      hide PageOk, PageHeader, Slots;
      CurrentSlots();
      var last := |pages| - 1;
      ghost var e := Cells(header, data + Fill(0xFF, SLOT * DataSlots(|data|) - |data|));
      curPage.AddEntry(header, data);
      sheets := sheets[last := curPage.entries];
      assert View() == old(View()).Append(e);
    }

    method AddHeader(header: seq<byte>)
      requires Valid() && |header| == SLOT && header[2] == 1 && View().Used() < MAX_ENTRIES
      modifies this`sheets, pages
      ensures Valid() && View() == old(View()).Append(Cells(header, []))
    {
      hide PageOk, PageHeader, Slots;
      CurrentSlots();
      var last := |pages| - 1;
      curPage.AddHeader(header);
      sheets := sheets[last := curPage.entries];
      assert View() == old(View()).Append(Cells(header, []));
    }
  
    /** The part of a loop turn that stores one chunk and turns the page if need be. */
    method StoreChunk(b: Blob, offset: nat, chunkCount: nat) returns (chunkSize: nat, ok: bool)
      requires Valid() && View().Used() < MAX_ENTRIES && offset <= |b.data| && chunkCount <= 255
      modifies this, pages
      ensures Valid() && fresh(set p <- pages | p !in old(pages))
      ensures View() == PlaceChunk(crc, b, old(View()), offset, chunkCount)
      ensures chunkSize == ChunkSize(old(View().Used()), |b.data| - offset)
      ensures ok == (TurnPage(old(View().Used()), |b.data| - offset) ==> old(View().left) > 0)
    {
      hide ChunkEntry, Slots, Store.Valid, Store.Append, Store.NewPage, Valid;
      CurrentSlots();
      var tailroom := (MAX_ENTRIES - curPage.entryNum - 1) * SLOT;
      var remaining := |b.data| - offset;
      chunkSize := if tailroom < remaining then tailroom else remaining;
      ChunkShape(crc, b, offset, chunkSize, chunkCount);
      AddEntry(ChunkEntry(crc, b, offset, chunkSize, chunkCount).header, b.data[offset..offset + chunkSize]);
      ok := true;
      if remaining - chunkSize > 0 || tailroom - chunkSize < SLOT {
        ok := CreateNewPage();
      }
    }

    /** write_varlen_binary_data, with the exceptions that can end it. */
    method WriteVarlenBinaryData(b: Blob) returns (outcome: Outcome)
      requires Valid()
      modifies this, pages
      ensures Valid() && fresh(set p <- pages | p !in old(pages))
      ensures (View(), outcome) == PutBlob(crc, b, old(View()), 0, 0)
    {
      hide Valid, Slots, IndexEntry, PlaceChunk, Store.Valid, Store.Append, Store.Used, View;
      hide PutBlob, TurnPage, ChunkSize, DataSlots, Tailroom;
      var chunkCount, offset := 0, 0;
      while true
        invariant Valid() && 0 <= offset <= |b.data| && 0 <= chunkCount <= 256
        invariant fresh(set p <- pages | p !in old(pages))
        invariant PutBlob(crc, b, View(), offset, chunkCount) == PutBlob(crc, b, old(View()), 0, 0)
        decreases |b.data| - offset, View().Used()
      {
        CurrentSlots();
        PutBlobStops(crc, b, View(), offset, chunkCount);
        if curPage.entryNum == MAX_ENTRIES {
          return PageOverflow;
        }
        if chunkCount > 255 {
          return BadValue;
        }
        ghost var before := View();
        PutBlobUnfolds(crc, b, before, offset, chunkCount);
        ChunkProgress(before.Used(), |b.data| - offset);
        var chunkSize, ok := StoreChunk(b, offset, chunkCount);
        if !ok {
          return NoSpace;
        }
        chunkCount, offset := chunkCount + 1, offset + chunkSize;
        if offset == |b.data| {
          if chunkCount > 255 {
            return BadValue;
          }
          AddHeader(IndexEntry(crc, b, chunkCount).header);
          return Done;
        }
      }
    }
  
    /** write_primitive_data on the current page, or on a new one when it is full. */
    method WritePrimitive(ns: byte, kind: byte, key: seq<byte>, value: seq<byte>) returns (outcome: Outcome)
      requires Valid() && |key| == 16 && |value| <= 8
      modifies this, pages
      ensures Valid() && fresh(set p <- pages | p !in old(pages))
      ensures outcome == if old(View().Used()) < MAX_ENTRIES || old(size) > 0 then Done else NoSpace
      ensures outcome == Done ==>
                Flatten(sheets) == Flatten(old(sheets)) + [PrimitiveEntry(crc, ns, kind, key, value)]
    {
      hide Valid, Slots, PrimitiveEntry, Flatten, Store.Valid, Store.Append, Store.NewPage;
      CurrentSlots();
      if curPage.entryNum >= MAX_ENTRIES {
        ghost var full := View();
        var ok := CreateNewPage();
        if !ok {
          return NoSpace;
        }
        NewPageFlat(full);
      }
      var e := PrimitiveEntry(crc, ns, kind, key, value);
      PrimitiveShape(crc, ns, kind, key, value);
      AppendFlat(View(), e);
      AddHeader(e.header);
      outcome := Done;
    }

    /** write_varlen_data for a string: PageOverflow stands for the uncaught PageFullError, BadValue for InputError. */
    method WriteString(ns: byte, key: seq<byte>, data: seq<byte>) returns (outcome: Outcome)
      requires Valid() && |key| == 16
      modifies this, pages
      ensures Valid() && fresh(set p <- pages | p !in old(pages))
      ensures outcome == Done <==> StringFits(old(View().Used()), |data|, old(size))
      ensures outcome == Done ==> Flatten(sheets) == Flatten(old(sheets)) + [StringEntry(crc, ns, key, data)]
    {
      hide Valid, Slots, StringEntry, Flatten, Store.Valid, Store.Append, Store.NewPage;
      if |data| > 4000 {
        return BadValue;
      }
      CurrentSlots();
      if curPage.entryNum + DataSlots(|data|) + 1 >= MAX_ENTRIES {
        ghost var full := View();
        var ok := CreateNewPage();
        if !ok {
          return NoSpace;
        }
        NewPageFlat(full);
        CurrentSlots();
        if curPage.entryNum + DataSlots(|data|) + 1 >= MAX_ENTRIES {
          return PageOverflow;
        }
      }
      var e := StringEntry(crc, ns, key, data);
      StringShape(crc, ns, key, data);
      AppendFlat(View(), e);
      AddEntry(e.header, data);
      outcome := Done;
    }

    /** __exit__ after success: blank pages up to the size, one more in reserve, all pages joined. */
    method Finish() returns (image: seq<byte>)
      requires Valid()
      modifies this, pages
      ensures |image| == inputSize + PAGE_SIZE && ReadImage(image) == Flatten(old(sheets))
    {
      hide PageOk, PageHeader, Flatten, ReadImage, Store.Valid, Store.NewPage;
      var ok := true;
      while ok
        invariant Valid() && Flatten(sheets) == Flatten(old(sheets)) && (!ok ==> size == 0)
        decreases size, ok
      {
        ghost var before := View();
        ok := CreateNewPage();
        if ok {
          NewPageFlat(before);
        }
      }
      var reserve := new Page(crc, pageNum + 1, true);
      image := JoinPages();
      BlankPage(reserve.pageBuf);
      ReadAppend(image, reserve.pageBuf);
      image := image + reserve.pageBuf;
    }

    /** get_binary_data for the pages made so far. */
    method JoinPages() returns (image: seq<byte>)
      requires Valid()
      ensures |image| == PAGE_SIZE * |pages| && PAGE_SIZE * |pages| + size == inputSize
      ensures ReadImage(image) == Flatten(sheets)
    {
      hide PageOk, Flatten, ReadImage, PageHeader, Walk;
      image := [];
      FlattenNone<Entry>();
      ReadNothing();
      var i := 0;
      while i < |pages|
        invariant 0 <= i <= |pages| && |image| == PAGE_SIZE * i
        invariant ReadImage(image) == Flatten(sheets[..i])
      {
        PageReads(pages[i].pageBuf, pages[i].bitmap, pages[i].entryNum, pages[i].entries);
        ReadAppend(image, pages[i].pageBuf);
        FlattenConcat(sheets[..i], [sheets[i]]);
        FlattenOne(sheets[i]);
        assert sheets[..i + 1] == sheets[..i] + [sheets[i]];
        image := image + pages[i].pageBuf;
        i := i + 1;
      }
      assert sheets[..i] == sheets;
    }
  }

  /** The entries of an image, page by page. */
  function ReadImage(image: seq<byte>): seq<Entry> {
    if |image| < PAGE_SIZE then [] else Walk(image[..PAGE_SIZE], 0) + ReadImage(image[PAGE_SIZE..])
  }

  lemma ReadNothing()
    ensures ReadImage([]) == []
  {
  }

  lemma {:induction false} ReadAppend(image: seq<byte>, page: seq<byte>)
    requires |image| % PAGE_SIZE == 0 && |page| == PAGE_SIZE
    ensures ReadImage(image + page) == ReadImage(image) + Walk(page, 0)
    decreases |image|
  {
    hide Walk;
    var all := image + page;
    if image == [] {
      assert all == page && page[..PAGE_SIZE] == page && page[PAGE_SIZE..] == [];
    } else {
      assert |image| >= PAGE_SIZE;
      ReadAppend(image[PAGE_SIZE..], page);
      assert all[..PAGE_SIZE] == image[..PAGE_SIZE] && all[PAGE_SIZE..] == image[PAGE_SIZE..] + page;
    }
  }

  lemma PageReads(buf: seq<byte>, bitmap: seq<byte>, used: nat, es: seq<Entry>)
    requires PageOk(buf, bitmap, used, es)
    ensures |buf| == PAGE_SIZE && Walk(buf, 0) == es
  {
    hide PageOk, Walk;
    BitmapIs(buf, bitmap, used, es);
    WalkFinds(buf, used, es, 0);
    assert es[..0] == [] && es[0..] == es;
  }

  lemma BitmapIs(buf: seq<byte>, bitmap: seq<byte>, used: nat, es: seq<Entry>)
    requires PageOk(buf, bitmap, used, es)
    ensures |buf| == PAGE_SIZE && PageOk(buf, BitmapOf(used), used, es)
  {
  }

  lemma BlankPage(buf: seq<byte>)
    requires buf == Fill(0xFF, PAGE_SIZE)
    ensures Walk(buf, 0) == []
  {
  }

  lemma PrimitiveShape(crc: Crc, ns: byte, kind: byte, key: seq<byte>, value: seq<byte>)
    requires |key| == 16 && |value| <= 8
    ensures
      var e := PrimitiveEntry(crc, ns, kind, key, value);
      |e.header| == SLOT && e.header[2] == 1 && e == Cells(e.header, [])
  {
  }

  lemma StringShape(crc: Crc, ns: byte, key: seq<byte>, data: seq<byte>)
    requires |key| == 16 && |data| <= 4000
    ensures
      var e := StringEntry(crc, ns, key, data);
      && |e.header| == SLOT && e.header[2] as nat == 1 + DataSlots(|data|)
      && e == Cells(e.header, data + Fill(0xFF, SLOT * DataSlots(|data|) - |data|))
  {
  }

  lemma ChunkShape(crc: Crc, b: Blob, at: nat, size: nat, index: nat)
    requires ChunkFits(b, at, size, index)
    ensures
      var e := ChunkEntry(crc, b, at, size, index);
      && |e.header| == SLOT && e.header[2] as nat == 1 + DataSlots(size)
      && e == Cells(e.header, b.data[at..at + size] + Fill(0xFF, SLOT * DataSlots(size) - size))
  {
  }
}
