/** How a blob is split over pages, when that succeeds, and that reading the chunks back gives the blob. */
module NvsBlobs {
  import opened Bytes
  import opened NvsSpec

  /** zlib.crc32 is not part of the model: any function will do. */
  type Crc = seq<byte> -> nat

  /** `key` is the zero-padded key field. */
  datatype BlobValue = BlobValue(ns: byte, key: seq<byte>, data: seq<byte>)
  type Blob = b: BlobValue | |b.key| == 16 witness BlobValue(0, seq(16, _ => 0), [])

  function Le16(n: nat): (s: seq<byte>)
    requires n < 0x1_0000
    ensures |s| == 2
  {
    [n % 0x100, n / 0x100]
  }

  function Le32(n: nat): (s: seq<byte>)
    ensures |s| == 4
  {
    [n % 0x100, n / 0x100 % 0x100, n / 0x1_0000 % 0x100, n / 0x100_0000 % 0x100]
  }

  function RdLe16(s: seq<byte>): nat
    requires |s| == 2
  {
    s[0] as nat + 0x100 * (s[1] as nat)
  }

  function RdLe32(s: seq<byte>): nat
    requires |s| == 4
  {
    s[0] as nat + 0x100 * (s[1] as nat) + 0x1_0000 * (s[2] as nat) + 0x100_0000 * (s[3] as nat)
  }

  /** set_crc_header: the CRC of everything but itself. */
  function Sealed(crc: Crc, head: seq<byte>, key: seq<byte>, value: seq<byte>): (h: seq<byte>)
    requires |head| == 4 && |key| == 16 && |value| == 8
    ensures |h| == SLOT && h[..4] == head && h[8..24] == key && h[24..32] == value
  {
    head + Le32(crc(head + key + value)) + key + value
  }

  /** Slots that `size` bytes take. */
  function DataSlots(size: nat): (n: nat)
    ensures SLOT * n >= size && (n == 0 || SLOT * (n - 1) < size)
  {
    (size + 31) / 32
  }

  predicate ChunkFits(b: Blob, at: nat, size: nat, index: nat) {
    at + size <= |b.data| && size <= 4000 && index < 256
  }

  /** A BLOB_DATA entry. */
  function ChunkEntry(crc: Crc, b: Blob, at: nat, size: nat, index: nat): (e: Entry)
    requires ChunkFits(b, at, size, index)
    ensures Span(e) == 1 + DataSlots(size)
  {
    var chunk, n := b.data[at..at + size], DataSlots(size);
    Cells(Sealed(crc, [b.ns, BLOB_DATA, 1 + n, index], b.key, Le16(size) + [0xFF, 0xFF] + Le32(crc(chunk))),
          chunk + Fill(0xFF, SLOT * n - size))
  }

  /** The BLOB_IDX entry. */
  function IndexEntry(crc: Crc, b: Blob, count: nat): (e: Entry)
    requires count < 256
    ensures Span(e) == 1
  {
    Cells(Sealed(crc, [b.ns, BLOB_IDX, 1, CHUNK_ANY], b.key, Le32(|b.data|) + [count, 0, 0xFF, 0xFF]), [])
  }

  datatype Outcome = Done | PageOverflow | NoSpace | BadValue

  /** The entries of every page, the last page being the current one, and the size still to be handed out. */
  datatype Store = Store(pages: seq<seq<Entry>>, left: nat) {
    predicate Valid() {
      pages != [] && left % PAGE_SIZE == 0 && forall k :: 0 <= k < |pages| ==> Slots(pages[k]) <= MAX_ENTRIES
    }

    function Used(): nat
      requires Valid()
    {
      Slots(pages[|pages| - 1])
    }

    function Append(e: Entry): (s: Store)
      requires Valid() && Used() + Span(e) <= MAX_ENTRIES
      ensures s.Valid() && s.Used() == Used() + Span(e) && s.left == left
    {
      var last := |pages| - 1;
      SlotsSnoc(pages[last], e);
      Store(pages[last := pages[last] + [e]], left)
    }

    function NewPage(): (s: Store)
      requires Valid() && left > 0
      ensures s.Valid() && s.Used() == 0 && s.left == left - PAGE_SIZE
    {
      Store(pages + [[]], left - PAGE_SIZE)
    }
  }

  /** Room for data behind one more header in a page with `used` slots. */
  function Tailroom(used: nat): nat
    requires used < MAX_ENTRIES
  {
    (MAX_ENTRIES - used - 1) * SLOT
  }

  function ChunkSize(used: nat, rest: nat): (size: nat)
    requires used < MAX_ENTRIES
    ensures size <= rest && size <= 4000 && used + 1 + DataSlots(size) <= MAX_ENTRIES
  {
    var room := Tailroom(used);
    if room < rest then room else rest
  }

  /** Whether a chunk leaves the page too full for what has to follow it. */
  predicate TurnPage(used: nat, rest: nat)
    requires used < MAX_ENTRIES
  {
    var size := ChunkSize(used, rest);
    size < rest || Tailroom(used) - size < SLOT
  }

  /** The store after one chunk, and after the page turn it asks for if that is possible. */
  function PlaceChunk(crc: Crc, b: Blob, s: Store, at: nat, count: nat): (r: Store)
    requires s.Valid() && s.Used() < MAX_ENTRIES && at <= |b.data| && count <= 255
    ensures r.Valid()
    ensures
      var turn := TurnPage(s.Used(), |b.data| - at);
      if turn && s.left > 0 then r.Used() == 0
      else r.Used() == s.Used() + 1 + DataSlots(ChunkSize(s.Used(), |b.data| - at))
    ensures r.left == if TurnPage(s.Used(), |b.data| - at) && s.left > 0 then s.left - PAGE_SIZE else s.left
  {
    var used, rest := s.Used(), |b.data| - at;
    var s1 := s.Append(ChunkEntry(crc, b, at, ChunkSize(used, rest), count));
    if TurnPage(used, rest) && s1.left > 0 then s1.NewPage() else s1
  }

  /** The loop of write_varlen_binary_data from chunk `count` and offset `at` on. */
  function PutBlob(crc: Crc, b: Blob, s: Store, at: nat, count: nat): (r: (Store, Outcome))
    requires s.Valid() && at <= |b.data|
    ensures r.0.Valid()
    decreases |b.data| - at, s.Used()
  {
    var used, rest := s.Used(), |b.data| - at;
    if used >= MAX_ENTRIES then (s, PageOverflow)
    else if count > 255 then (s, BadValue)
    else
      var size, turned := ChunkSize(used, rest), PlaceChunk(crc, b, s, at, count);
      if TurnPage(used, rest) && s.left == 0 then (turned, NoSpace)
      else if size < rest then PutBlob(crc, b, turned, at + size, count + 1)
      else if count + 1 > 255 then (turned, BadValue)
      else
        RoomForIndex(used, rest);
        (turned.Append(IndexEntry(crc, b, count + 1)), Done)
  }

  /** A chunk that does not turn the page leaves a slot for the index. */
  lemma RoomForIndex(used: nat, rest: nat)
    requires used < MAX_ENTRIES
    ensures !TurnPage(used, rest) ==> used + 1 + DataSlots(ChunkSize(used, rest)) < MAX_ENTRIES
  {
  }

  /** The sizes of the chunks, from a page with `used` slots on. */
  function ChunkSizes(used: nat, rest: nat): (sizes: seq<nat>)
    requires used < MAX_ENTRIES
    ensures sizes != [] && forall k :: 0 <= k < |sizes| ==> sizes[k] <= 4000
    decreases rest, used
  {
    var size := ChunkSize(used, rest);
    [size] + if size < rest then ChunkSizes(0, rest - size) else []
  }

  function Sum(sizes: seq<nat>): nat {
    if sizes == [] then 0 else sizes[0] + Sum(sizes[1..])
  }

  /** The chunk entries from offset `at` and index `count` on. */
  function Chunks(crc: Crc, b: Blob, at: nat, count: nat, sizes: seq<nat>): (es: seq<Entry>)
    requires at + Sum(sizes) <= |b.data| && count + |sizes| <= 256
    requires forall k :: 0 <= k < |sizes| ==> sizes[k] <= 4000
    ensures |es| == |sizes|
    decreases |sizes|
  {
    if sizes == [] then []
    else [ChunkEntry(crc, b, at, sizes[0], count)] + Chunks(crc, b, at + sizes[0], count + 1, sizes[1..])
  }

  lemma {:induction false} SizesCover(used: nat, rest: nat)
    requires used < MAX_ENTRIES
    ensures Sum(ChunkSizes(used, rest)) == rest
    decreases rest, used
  {
    hide DataSlots;
    var size := ChunkSize(used, rest);
    var more := if size < rest then ChunkSizes(0, rest - size) else [];
    assert ChunkSizes(used, rest)[1..] == more;
    if size < rest {
      SizesCover(0, rest - size);
    }
  }

  lemma AppendFlat(s: Store, e: Entry)
    requires s.Valid() && s.Used() + Span(e) <= MAX_ENTRIES
    ensures Flatten(s.Append(e).pages) == Flatten(s.pages) + [e]
  {
    var last := |s.pages| - 1;
    var head := s.pages[..last];
    FlattenConcat(head, [s.pages[last]]);
    FlattenConcat(head, [s.pages[last] + [e]]);
    FlattenOne(s.pages[last]);
    FlattenOne(s.pages[last] + [e]);
    assert s.pages == head + [s.pages[last]];
    assert s.Append(e).pages == head + [s.pages[last] + [e]];
  }

  lemma NewPageFlat(s: Store)
    requires s.Valid() && s.left > 0
    ensures Flatten(s.NewPage().pages) == Flatten(s.pages)
  {
    FlattenConcat(s.pages, [[]]);
    FlattenOne<Entry>([]);
  }

  lemma PlaceChunkFlat(crc: Crc, b: Blob, s: Store, at: nat, count: nat)
    requires s.Valid() && s.Used() < MAX_ENTRIES && at <= |b.data| && count <= 255
    ensures
      Flatten(PlaceChunk(crc, b, s, at, count).pages) ==
      Flatten(s.pages) + [ChunkEntry(crc, b, at, ChunkSize(s.Used(), |b.data| - at), count)]
  {
    hide Flatten, ChunkEntry;
    var e := ChunkEntry(crc, b, at, ChunkSize(s.Used(), |b.data| - at), count);
    AppendFlat(s, e);
    if s.left > 0 {
      NewPageFlat(s.Append(e));
    }
  }

  lemma ChunksStep(crc: Crc, b: Blob, at: nat, count: nat, size: nat, more: seq<nat>)
    requires at + size + Sum(more) <= |b.data| && count + |more| <= 255 && size <= 4000
    requires forall k :: 0 <= k < |more| ==> more[k] <= 4000
    ensures Sum([size] + more) == size + Sum(more)
    ensures forall k :: 0 <= k < |more| + 1 ==> ([size] + more)[k] <= 4000
    ensures
      Chunks(crc, b, at, count, [size] + more) ==
      [ChunkEntry(crc, b, at, size, count)] + Chunks(crc, b, at + size, count + 1, more)
  {
    hide ChunkEntry;
    assert ([size] + more)[1..] == more;
  }

  /** One turn of the loop. */
  lemma PutBlobUnfolds(crc: Crc, b: Blob, s: Store, at: nat, count: nat)
    requires s.Valid() && at <= |b.data| && s.Used() < MAX_ENTRIES && count <= 255
    ensures
      var used, rest := s.Used(), |b.data| - at;
      var turned, size := PlaceChunk(crc, b, s, at, count), ChunkSize(used, rest);
      var r := PutBlob(crc, b, s, at, count);
      if TurnPage(used, rest) && s.left == 0 then r == (turned, NoSpace)
      else if size < rest then r == PutBlob(crc, b, turned, at + size, count + 1) && turned.Used() == 0
      else
        && turned.Used() < MAX_ENTRIES
        && r == if count < 255 then (turned.Append(IndexEntry(crc, b, count + 1)), Done) else (turned, BadValue)
    ensures
      PlaceChunk(crc, b, s, at, count).left ==
      if TurnPage(s.Used(), |b.data| - at) && s.left > 0 then s.left - PAGE_SIZE else s.left
  {
    hide DataSlots, Slots, ChunkEntry, IndexEntry, PlaceChunk, ChunkSize, Store.Valid, Store.Used, Store.Append, Tailroom;
    RoomForIndex(s.Used(), |b.data| - at);
  }

  lemma PutBlobStops(crc: Crc, b: Blob, s: Store, at: nat, count: nat)
    requires s.Valid() && at <= |b.data|
    ensures s.Used() <= MAX_ENTRIES
    ensures s.Used() == MAX_ENTRIES ==> PutBlob(crc, b, s, at, count) == (s, PageOverflow)
    ensures s.Used() < MAX_ENTRIES && count > 255 ==> PutBlob(crc, b, s, at, count) == (s, BadValue)
  {
  }

  lemma DoneNeeds(crc: Crc, b: Blob, s: Store, at: nat, count: nat)
    requires s.Valid() && at <= |b.data| && PutBlob(crc, b, s, at, count).1 == Done
    ensures s.Used() < MAX_ENTRIES && count <= 255
  {
  }

  /** `r` holds the entries of `s`, then the chunks from offset `at` and index `count` on, then the index. */
  predicate Appended(crc: Crc, b: Blob, s: Store, at: nat, count: nat, r: Store) {
    && s.Valid() && s.Used() < MAX_ENTRIES && at <= |b.data|
    && var sizes := ChunkSizes(s.Used(), |b.data| - at);
      && Sum(sizes) == |b.data| - at && count + |sizes| <= 255
      && Flatten(r.pages) ==
         Flatten(s.pages) + Chunks(crc, b, at, count, sizes) + [IndexEntry(crc, b, count + |sizes|)]
  }

  lemma LastChunk(crc: Crc, b: Blob, s: Store, at: nat, count: nat)
    requires s.Valid() && s.Used() < MAX_ENTRIES && at <= |b.data| && count < 255
    requires ChunkSize(s.Used(), |b.data| - at) == |b.data| - at
    requires PlaceChunk(crc, b, s, at, count).Used() < MAX_ENTRIES
    ensures Appended(crc, b, s, at, count, PlaceChunk(crc, b, s, at, count).Append(IndexEntry(crc, b, count + 1)))
  {
    hide ChunkEntry, IndexEntry, DataSlots, Flatten, PlaceChunk, Slots, Sum, Chunks, Store.Append, Tailroom;
    var size, turned := ChunkSize(s.Used(), |b.data| - at), PlaceChunk(crc, b, s, at, count);
    PlaceChunkFlat(crc, b, s, at, count);
    AppendFlat(turned, IndexEntry(crc, b, count + 1));
    NoChunks(crc, b, at + size, count + 1);
    ChunksStep(crc, b, at, count, size, []);
    assert ChunkSizes(s.Used(), size) == [size] + [];
  }

  lemma NextChunk(crc: Crc, b: Blob, s: Store, at: nat, count: nat, r: Store)
    requires s.Valid() && s.Used() < MAX_ENTRIES && at <= |b.data| && count <= 255
    requires
      var size, turned := ChunkSize(s.Used(), |b.data| - at), PlaceChunk(crc, b, s, at, count);
      size < |b.data| - at && turned.Used() == 0 && Appended(crc, b, turned, at + size, count + 1, r)
    ensures Appended(crc, b, s, at, count, r)
  {
    hide ChunkEntry, IndexEntry, DataSlots, Flatten, PlaceChunk, Slots, Sum, Chunks, Store.Append, Tailroom, ChunkSize;
    var rest := |b.data| - at;
    var size := ChunkSize(s.Used(), rest);
    var more := ChunkSizes(0, rest - size);
    PlaceChunkFlat(crc, b, s, at, count);
    ChunksStep(crc, b, at, count, size, more);
    assert ChunkSizes(s.Used(), rest) == [size] + more;
  }

  lemma NoChunks(crc: Crc, b: Blob, at: nat, count: nat)
    requires at <= |b.data| && count <= 256
    ensures Sum([]) == 0 && Chunks(crc, b, at, count, []) == []
  {
  }

  lemma ChunkProgress(used: nat, rest: nat)
    requires used < MAX_ENTRIES
    ensures ChunkSize(used, rest) < rest && ChunkSize(used, rest) == 0 ==> used > 0
  {
  }

  /** A successful write appends the chunks in order and then the index, wherever the pages break. */
  lemma {:induction false} PutBlobAppends(crc: Crc, b: Blob, s: Store, at: nat, count: nat)
    requires s.Valid() && at <= |b.data| && PutBlob(crc, b, s, at, count).1 == Done
    ensures Appended(crc, b, s, at, count, PutBlob(crc, b, s, at, count).0)
    decreases |b.data| - at, s.Used()
  {
    hide *;
    DoneNeeds(crc, b, s, at, count);
    PutBlobUnfolds(crc, b, s, at, count);
    ChunkProgress(s.Used(), |b.data| - at);
    var size, turned := ChunkSize(s.Used(), |b.data| - at), PlaceChunk(crc, b, s, at, count);
    if size < |b.data| - at {
      PutBlobAppends(crc, b, turned, at + size, count + 1);
      NextChunk(crc, b, s, at, count, PutBlob(crc, b, turned, at + size, count + 1).0);
    } else {
      LastChunk(crc, b, s, at, count);
    }
  }

  /** Chunks that a blob of `n` bytes makes from a page with `used` slots on. */
  function ChunkCount(used: nat, n: nat): (count: nat)
    requires used < MAX_ENTRIES
    ensures count > 0
  {
    var room := Tailroom(used);
    if n <= room then 1 else 1 + (n - room + 3999) / 4000
  }

  /** New pages it needs: one behind every chunk but the last, and one more when less than a slot is left then. */
  function PagesTurned(used: nat, n: nat): nat
    requires used < MAX_ENTRIES
  {
    var room := Tailroom(used);
    var unused := if n <= room then room - n else 3999 - (n - room - 1) % 4000;
    ChunkCount(used, n) - 1 + if unused < SLOT then 1 else 0
  }

  lemma CountsOfRest(used: nat, rest: nat)
    requires used < MAX_ENTRIES && ChunkSize(used, rest) < rest
    ensures
      var more := rest - ChunkSize(used, rest);
      ChunkCount(used, rest) == 1 + ChunkCount(0, more) && PagesTurned(used, rest) == 1 + PagesTurned(0, more)
  {
    var more := rest - Tailroom(used);
    if more > 4000 {
      assert (more - 1) % 4000 == (more - 4000 - 1) % 4000;
      assert (more + 3999) / 4000 == 1 + (more - 4000 + 3999) / 4000;
    }
  }

  /** The exact condition for success, from the state before the call alone. */
  predicate BlobFits(used: nat, n: nat, count: nat, left: nat) {
    used < MAX_ENTRIES && count + ChunkCount(used, n) <= 255 && PAGE_SIZE * PagesTurned(used, n) <= left
  }

  /** A write succeeds exactly when the page is not quite full, the chunks are few enough and the size suffices. */
  lemma {:induction false} BlobSucceedsIff(crc: Crc, b: Blob, s: Store, at: nat, count: nat)
    requires s.Valid() && at <= |b.data| && count <= 255
    ensures PutBlob(crc, b, s, at, count).1 == Done <==> BlobFits(s.Used(), |b.data| - at, count, s.left)
    ensures PutBlob(crc, b, s, at, count).1 == PageOverflow <==> s.Used() == MAX_ENTRIES
    decreases |b.data| - at, s.Used()
  {
    hide *;
    var used, rest := s.Used(), |b.data| - at;
    UsedBound(s);
    if used == 126 {
      FullPageOverflows(crc, b, s, at, count);
    } else {
      PutBlobUnfolds(crc, b, s, at, count);
      ChunkProgress(used, rest);
      FitsStep(used, rest, count, s.left);
      if ChunkSize(used, rest) < rest && s.left > 0 {
        if count < 255 {
          BlobSucceedsIff(crc, b, PlaceChunk(crc, b, s, at, count), at + ChunkSize(used, rest), count + 1);
        } else {
          TooManyChunks(crc, b, PlaceChunk(crc, b, s, at, count), at + ChunkSize(used, rest));
        }
      }
    }
  }

  lemma UsedBound(s: Store)
    requires s.Valid()
    ensures s.Used() <= MAX_ENTRIES && s.left % PAGE_SIZE == 0
    ensures MAX_ENTRIES == 126 && PAGE_SIZE == 4096
  {
  }

  lemma FullPageOverflows(crc: Crc, b: Blob, s: Store, at: nat, count: nat)
    requires s.Valid() && at <= |b.data| && s.Used() == MAX_ENTRIES
    ensures PutBlob(crc, b, s, at, count).1 == PageOverflow && !BlobFits(s.Used(), |b.data| - at, count, s.left)
  {
  }

  lemma FitsStep(used: nat, rest: nat, count: nat, left: nat)
    requires used < MAX_ENTRIES && left % PAGE_SIZE == 0 && count <= 255
    ensures
      var size := ChunkSize(used, rest);
      if size < rest then
        && TurnPage(used, rest)
        && (BlobFits(used, rest, count, left) <==>
            left > 0 && count < 255 && BlobFits(0, rest - size, count + 1, left - PAGE_SIZE))
        && (left > 0 ==> left >= PAGE_SIZE)
      else
        BlobFits(used, rest, count, left) <==> count < 255 && (TurnPage(used, rest) ==> left > 0)
  {
    var size := ChunkSize(used, rest);
    if left > 0 {
      FullPages(left);
    }
    if size < rest {
      CountsOfRest(used, rest);
      hide ChunkCount, Tailroom, DataSlots, ChunkSize;
    }
  }

  lemma TooManyChunks(crc: Crc, b: Blob, s: Store, at: nat)
    requires s.Valid() && at <= |b.data| && s.Used() < MAX_ENTRIES
    ensures PutBlob(crc, b, s, at, 256).1 == BadValue
  {
  }

  lemma FullPages(left: nat)
    requires left % PAGE_SIZE == 0 && left > 0
    ensures left >= PAGE_SIZE
  {
  }

  /** Whether an entry belongs to a blob and has the given type and chunk index. */
  predicate Concerns(e: Entry, ns: byte, key: seq<byte>, kind: nat, index: nat) {
    e.header[0] == ns && e.header[1] as nat == kind && e.header[3] as nat == index && e.header[8..24] == key
  }

  /** The first such entry. */
  function Find(es: seq<Entry>, ns: byte, key: seq<byte>, kind: nat, index: nat): Option<Entry> {
    if es == [] then None
    else if Concerns(es[0], ns, key, kind, index) then Some(es[0])
    else Find(es[1..], ns, key, kind, index)
  }

  /** The data of `count` chunks in index order, from index `k` on. */
  function Gather(es: seq<Entry>, ns: byte, key: seq<byte>, k: nat, count: nat): Option<seq<byte>>
    decreases count
  {
    if count == 0 then Some([])
    else
      match Find(es, ns, key, BLOB_DATA, k)
      case None => None
      case Some(e) =>
        var size := RdLe16(e.header[24..26]);
        if size > |e.body| then None
        else
          match Gather(es, ns, key, k + 1, count - 1)
          case None => None
          case Some(rest) => Some(e.body[..size] + rest)
  }

  /** Reads a blob by its index entry, which must agree with the size of what is found. */
  function ReadBlob(es: seq<Entry>, ns: byte, key: seq<byte>): Option<seq<byte>> {
    match Find(es, ns, key, BLOB_IDX, CHUNK_ANY)
    case None => None
    case Some(index) =>
      match Gather(es, ns, key, index.header[29] as nat, index.header[28] as nat)
      case None => None
      case Some(data) => if |data| == RdLe32(index.header[24..28]) then Some(data) else None
  }

  lemma {:induction false} FindFirst(es: seq<Entry>, j: nat, ns: byte, key: seq<byte>, kind: nat, index: nat)
    requires j < |es| && Concerns(es[j], ns, key, kind, index)
    requires forall k :: 0 <= k < j ==> !Concerns(es[k], ns, key, kind, index)
    ensures Find(es, ns, key, kind, index) == Some(es[j])
  {
    if j > 0 {
      FindFirst(es[1..], j - 1, ns, key, kind, index);
    }
  }

  lemma LittleEndian(n: nat)
    ensures n < 0x1_0000 ==> RdLe16(Le16(n)) == n
    ensures n < 0x1_0000_0000 ==> RdLe32(Le32(n)) == n
  {
    if n < 0x1_0000_0000 {
      FourDigits(n);
    }
  }

  /** A 32-bit number from its bytes. */
  lemma FourDigits(n: nat)
    requires n < 0x1_0000_0000
    ensures
      n % 0x100 + 0x100 * (n / 0x100 % 0x100) + 0x1_0000 * (n / 0x1_0000 % 0x100) + 0x100_0000 * (n / 0x100_0000 % 0x100) == n
  {
    TwoDigits(n);
    TwoDigits(n / 0x1_0000);
    Quotients(n);
    assert n == n / 0x1_0000 * 0x1_0000 + n % 0x1_0000;
  }

  lemma TwoDigits(n: nat)
    ensures n % 0x100 + 0x100 * (n / 0x100 % 0x100) == n % 0x1_0000
  {
    var q := n / 0x100;
    assert n == 0x100 * q + n % 0x100 && q == 0x100 * (q / 0x100) + q % 0x100;
    LowHalf(q / 0x100, n % 0x100 + 0x100 * (q % 0x100));
  }

  lemma LowHalf(a: nat, r: nat)
    requires r < 0x1_0000
    ensures (0x1_0000 * a + r) % 0x1_0000 == r
  {
  }

  lemma Quotients(n: nat)
    requires n < 0x1_0000_0000
    ensures n / 0x1_0000 / 0x100 == n / 0x100_0000 && n / 0x1_0000 % 0x1_0000 == n / 0x1_0000
  {
  }

  lemma ChunkFields(crc: Crc, b: Blob, at: nat, size: nat, index: nat)
    requires ChunkFits(b, at, size, index)
    ensures
      var e := ChunkEntry(crc, b, at, size, index);
      && Concerns(e, b.ns, b.key, BLOB_DATA, index) && e.header[3] as nat == index
      && e.header[1] as nat == BLOB_DATA
      && RdLe16(e.header[24..26]) == size <= |e.body| && e.body[..size] == b.data[at..at + size]
  {
    var e := ChunkEntry(crc, b, at, size, index);
    LittleEndian(size);
    assert e.header[24..26] == e.header[24..32][..2] == Le16(size);
  }

  lemma IndexFields(crc: Crc, b: Blob, count: nat)
    requires count < 256 && |b.data| < 0x1_0000_0000
    ensures
      var e := IndexEntry(crc, b, count);
      && Concerns(e, b.ns, b.key, BLOB_IDX, CHUNK_ANY)
      && e.header[28] as nat == count && e.header[29] == 0 && RdLe32(e.header[24..28]) == |b.data|
  {
    var e := IndexEntry(crc, b, count);
    LittleEndian(|b.data|);
    assert e.header[24..28] == e.header[24..32][..4] == Le32(|b.data|);
    assert e.header[28] == e.header[24..32][4] && e.header[29] == e.header[24..32][5];
  }

  /** Chunk `k` of the list. */
  lemma {:induction false} ChunkAt(crc: Crc, b: Blob, at: nat, count: nat, sizes: seq<nat>, k: nat)
    requires at + Sum(sizes) <= |b.data| && count + |sizes| <= 256 && k < |sizes|
    requires forall i :: 0 <= i < |sizes| ==> sizes[i] <= 4000
    ensures at + Sum(sizes[..k]) + sizes[k] <= |b.data| && Sum(sizes[..k + 1]) == Sum(sizes[..k]) + sizes[k]
    ensures
      Chunks(crc, b, at, count, sizes)[k] == ChunkEntry(crc, b, at + Sum(sizes[..k]), sizes[k], count + k)
    decreases k
  {
    hide ChunkEntry, Sum, Chunks;
    ChunksFirst(crc, b, at, count, sizes);
    SumFirst(sizes, k + 1);
    if k > 0 {
      SumFirst(sizes, k);
      ChunkAt(crc, b, at + sizes[0], count + 1, sizes[1..], k - 1);
    } else {
      NoSum(sizes);
    }
  }

  lemma NoSum(sizes: seq<nat>)
    ensures Sum(sizes[..0]) == 0 && (sizes != [] ==> Sum(sizes[1..][..0]) == 0)
  {
  }

  lemma ChunksFirst(crc: Crc, b: Blob, at: nat, count: nat, sizes: seq<nat>)
    requires at + Sum(sizes) <= |b.data| && count + |sizes| <= 256 && sizes != []
    requires forall i :: 0 <= i < |sizes| ==> sizes[i] <= 4000
    ensures Sum(sizes) == sizes[0] + Sum(sizes[1..])
    ensures
      Chunks(crc, b, at, count, sizes) ==
      [ChunkEntry(crc, b, at, sizes[0], count)] + Chunks(crc, b, at + sizes[0], count + 1, sizes[1..])
  {
    hide ChunkEntry;
  }

  lemma SumFirst(sizes: seq<nat>, n: nat)
    requires 0 < n <= |sizes|
    ensures Sum(sizes[..n]) == sizes[0] + Sum(sizes[1..][..n - 1])
  {
    assert sizes[1..][..n - 1] == sizes[..n][1..];
  }

  /** No entry of a blob under this key. */
  predicate Unrelated(es: seq<Entry>, ns: byte, key: seq<byte>) {
    forall k :: 0 <= k < |es| ==> !OfBlob(es[k], ns, key)
  }

  predicate OfBlob(e: Entry, ns: byte, key: seq<byte>) {
    e.header[0] == ns && e.header[8..24] == key && (e.header[1] as nat == BLOB_DATA || e.header[1] as nat == BLOB_IDX)
  }

  predicate Splits(b: Blob, sizes: seq<nat>) {
    && Sum(sizes) == |b.data| && |sizes| <= 255
    && forall k :: 0 <= k < |sizes| ==> sizes[k] <= 4000
  }

  /** The entries of a blob. */
  function Written(crc: Crc, b: Blob, sizes: seq<nat>): (es: seq<Entry>)
    requires Splits(b, sizes)
    ensures |es| == |sizes| + 1
  {
    Chunks(crc, b, 0, 0, sizes) + [IndexEntry(crc, b, |sizes|)]
  }

  lemma WrittenAt(crc: Crc, b: Blob, sizes: seq<nat>, k: nat)
    requires Splits(b, sizes) && k < |sizes|
    ensures Sum(sizes[..k]) + sizes[k] == Sum(sizes[..k + 1]) <= |b.data|
    ensures Written(crc, b, sizes)[k] == ChunkEntry(crc, b, Sum(sizes[..k]), sizes[k], k)
  {
    hide ChunkEntry, IndexEntry;
    ChunkAt(crc, b, 0, 0, sizes, k);
  }

  lemma FindsChunk(crc: Crc, b: Blob, before: seq<Entry>, sizes: seq<nat>, after: seq<Entry>, k: nat)
    requires Splits(b, sizes) && Unrelated(before, b.ns, b.key) && k < |sizes|
    ensures
      Find(before + Written(crc, b, sizes) + after, b.ns, b.key, BLOB_DATA, k) == Some(Written(crc, b, sizes)[k])
  {
    hide Written, ChunkEntry, Find;
    var es := before + Written(crc, b, sizes) + after;
    forall i | 0 <= i < |before| + k
      ensures !Concerns(es[i], b.ns, b.key, BLOB_DATA, k)
    {
      if i >= |before| {
        var j := i - |before|;
        WrittenAt(crc, b, sizes, j);
        ChunkFields(crc, b, Sum(sizes[..j]), sizes[j], j);
      } else {
        assert !OfBlob(before[i], b.ns, b.key);
      }
    }
    WrittenAt(crc, b, sizes, k);
    ChunkFields(crc, b, Sum(sizes[..k]), sizes[k], k);
    FindFirst(es, |before| + k, b.ns, b.key, BLOB_DATA, k);
  }

  lemma FindsIndex(crc: Crc, b: Blob, before: seq<Entry>, sizes: seq<nat>, after: seq<Entry>)
    requires Splits(b, sizes) && Unrelated(before, b.ns, b.key)
    ensures
      Find(before + Written(crc, b, sizes) + after, b.ns, b.key, BLOB_IDX, CHUNK_ANY) ==
      Some(IndexEntry(crc, b, |sizes|))
  {
    var index := IndexEntry(crc, b, |sizes|);
    assert Written(crc, b, sizes)[|sizes|] == index;
    SizesBound(sizes);
    IndexFields(crc, b, |sizes|);
    hide Written, ChunkEntry, Find, IndexEntry;
    var es := before + Written(crc, b, sizes) + after;
    forall i | 0 <= i < |before| + |sizes|
      ensures !Concerns(es[i], b.ns, b.key, BLOB_IDX, CHUNK_ANY)
    {
      if i >= |before| {
        var j := i - |before|;
        WrittenAt(crc, b, sizes, j);
        ChunkFields(crc, b, Sum(sizes[..j]), sizes[j], j);
      } else {
        assert !OfBlob(before[i], b.ns, b.key);
      }
    }
    assert es[|before| + |sizes|] == index;
    FindFirst(es, |before| + |sizes|, b.ns, b.key, BLOB_IDX, CHUNK_ANY);
  }

  lemma {:induction false} SizesBound(sizes: seq<nat>)
    requires forall k :: 0 <= k < |sizes| ==> sizes[k] <= 4000
    ensures Sum(sizes) <= 4000 * |sizes|
  {
    if sizes != [] {
      SizesBound(sizes[1..]);
    }
  }

  lemma {:induction false} GathersRest(crc: Crc, b: Blob, before: seq<Entry>, sizes: seq<nat>, after: seq<Entry>, k: nat)
    requires Splits(b, sizes) && Unrelated(before, b.ns, b.key) && k <= |sizes|
    ensures Sum(sizes[..k]) <= |b.data|
    ensures
      Gather(before + Written(crc, b, sizes) + after, b.ns, b.key, k, |sizes| - k) == Some(b.data[Sum(sizes[..k])..])
    decreases |sizes| - k
  {
    hide Written, ChunkEntry, Find, Unrelated, Sum;
    if k == |sizes| {
      assert sizes[..k] == sizes;
    } else {
      GathersRest(crc, b, before, sizes, after, k + 1);
      FindsChunk(crc, b, before, sizes, after, k);
      WrittenAt(crc, b, sizes, k);
      var from, to := Sum(sizes[..k]), Sum(sizes[..k + 1]);
      ChunkFields(crc, b, from, sizes[k], k);
      assert b.data[from..to] + b.data[to..] == b.data[from..];
    }
  }

  /** The chunks read back in index order are the blob and agree with the index entry. */
  lemma ReadsBack(crc: Crc, b: Blob, before: seq<Entry>, sizes: seq<nat>, after: seq<Entry>)
    requires Splits(b, sizes) && Unrelated(before, b.ns, b.key)
    ensures ReadBlob(before + Written(crc, b, sizes) + after, b.ns, b.key) == Some(b.data)
  {
    GathersRest(crc, b, before, sizes, after, 0);
    FindsIndex(crc, b, before, sizes, after);
    SizesBound(sizes);
    IndexFields(crc, b, |sizes|);
    hide Written, Gather, Find, IndexEntry;
  }

  lemma AppendedWritten(crc: Crc, b: Blob, s: Store, r: Store) returns (sizes: seq<nat>)
    requires s.Valid() && Appended(crc, b, s, 0, 0, r)
    ensures Splits(b, sizes) && Flatten(r.pages) == Flatten(s.pages) + Written(crc, b, sizes)
  {
    sizes := ChunkSizes(s.Used(), |b.data|);
    hide Flatten, Chunks, IndexEntry, ChunkSizes, Slots;
    assert Flatten(s.pages) + Written(crc, b, sizes) ==
           Flatten(s.pages) + Chunks(crc, b, 0, 0, sizes) + [IndexEntry(crc, b, |sizes|)];
  }

  /** A blob written anywhere in a store is read back from it, whatever is written before and after. */
  lemma BlobRoundTrip(crc: Crc, b: Blob, s: Store, after: seq<Entry>)
    requires s.Valid() && BlobFits(s.Used(), |b.data|, 0, s.left) && Unrelated(Flatten(s.pages), b.ns, b.key)
    ensures ReadBlob(Flatten(PutBlob(crc, b, s, 0, 0).0.pages) + after, b.ns, b.key) == Some(b.data)
  {
    hide *;
    BlobSucceedsIff(crc, b, s, 0, 0);
    PutBlobAppends(crc, b, s, 0, 0);
    var sizes := AppendedWritten(crc, b, s, PutBlob(crc, b, s, 0, 0).0);
    ReadsBack(crc, b, Flatten(s.pages), sizes, after);
  }

  /** A primitive value: its bytes in the eight-byte value field. */
  function PrimitiveEntry(crc: Crc, ns: byte, kind: byte, key: seq<byte>, value: seq<byte>): (e: Entry)
    requires |key| == 16 && |value| <= 8
    ensures Span(e) == 1 && e.header[1] == kind
  {
    Cells(Sealed(crc, [ns, kind, 1, CHUNK_ANY], key, value + Fill(0xFF, 8 - |value|)), [])
  }

  const SZ := 0x21

  /** A string, its terminating NUL included. */
  function StringEntry(crc: Crc, ns: byte, key: seq<byte>, data: seq<byte>): (e: Entry)
    requires |key| == 16 && |data| <= 4000
    ensures Span(e) == 1 + DataSlots(|data|) && e.header[1] as nat == SZ
  {
    var n := DataSlots(|data|);
    Cells(Sealed(crc, [ns, SZ, 1 + n, CHUNK_ANY], key, Le16(|data|) + [0xFF, 0xFF] + Le32(crc(data))),
          data + Fill(0xFF, SLOT * n - |data|))
  }

  /** Whether a string of `n` bytes is stored: the page it would fill to the last slot is not used for it. */
  predicate StringFits(used: nat, n: nat, left: nat) {
    n <= 4000 && 1 + DataSlots(n) < MAX_ENTRIES && (used + 1 + DataSlots(n) < MAX_ENTRIES || left > 0)
  }

  /** Lengths from 3969 to the documented maximum of 4000 pass the length check and can never be stored. */
  lemma LongStringsNeverFit(used: nat, n: nat, left: nat)
    ensures StringFits(used, n, left) ==> n <= 3968
    ensures n <= 3968 && left > 0 ==> StringFits(used, n, left)
  {
  }
}
