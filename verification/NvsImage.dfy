/** Whole runs of the image builder: every blob written can be read from the finished image. */
module NvsImage {
  import opened Bytes
  import opened NvsSpec
  import opened NvsBlobs
  import opened Nvs

  /** A line of the input table after decoding. */
  datatype Value = Primitive(ns: byte, kind: byte, key: seq<byte>, value: seq<byte>)
                 | Text(ns: byte, key: seq<byte>, data: seq<byte>)
                 | Binary(blob: Blob)

  /** The type codes of the primitive encodings. */
  predicate PrimitiveKind(kind: byte) {
    kind == 0x01 || kind == 0x11 || kind == 0x02 || kind == 0x12 || kind == 0x04 || kind == 0x14
  }

  predicate ValueOk(v: Value) {
    match v
    case Primitive(_, kind, key, value) => PrimitiveKind(kind) && |key| == 16 && |value| <= 8
    case Text(_, key, _) => |key| == 16
    case Binary(_) => true
  }

  predicate SameKey(v: Value, b: Blob) {
    v.Binary? && v.blob.ns == b.ns && v.blob.key == b.key
  }

  /** No value among the first `n` is a blob under the same key. */
  predicate FirstUnder(values: seq<Value>, n: nat, b: Blob)
    requires n <= |values|
  {
    forall k :: 0 <= k < n ==> !SameKey(values[k], b)
  }

  /** Every blob among the first `n` values that is the first under its key can be read. */
  predicate BlobsReadable(es: seq<Entry>, values: seq<Value>, n: nat)
    requires n <= |values|
  {
    forall k :: 0 <= k < n && values[k].Binary? && FirstUnder(values, k, values[k].blob) ==>
      ReadBlob(es, values[k].blob.ns, values[k].blob.key) == Some(values[k].blob.data)
  }

  /** Nothing is stored yet under the key of a blob that is still to come. */
  predicate KeysFree(es: seq<Entry>, values: seq<Value>, n: nat)
    requires n <= |values|
  {
    forall k :: n <= k < |values| && values[k].Binary? && FirstUnder(values, n, values[k].blob) ==>
      Unrelated(es, values[k].blob.ns, values[k].blob.key)
  }

  lemma {:induction false} FindGrows(es: seq<Entry>, more: seq<Entry>, ns: byte, key: seq<byte>, kind: nat, index: nat)
    requires Find(es, ns, key, kind, index).Some?
    ensures Find(es + more, ns, key, kind, index) == Find(es, ns, key, kind, index)
  {
    assert (es + more)[0] == es[0];
    if !Concerns(es[0], ns, key, kind, index) {
      FindGrows(es[1..], more, ns, key, kind, index);
      assert (es + more)[1..] == es[1..] + more;
    }
  }

  lemma {:induction false} GatherGrows(es: seq<Entry>, more: seq<Entry>, ns: byte, key: seq<byte>, k: nat, count: nat)
    requires Gather(es, ns, key, k, count).Some?
    ensures Gather(es + more, ns, key, k, count) == Gather(es, ns, key, k, count)
    decreases count
  {
    if count > 0 {
      FindGrows(es, more, ns, key, BLOB_DATA, k);
      hide Find;
      GatherGrows(es, more, ns, key, k + 1, count - 1);
    }
  }

  /** Later entries never hide a blob. */
  lemma ReadGrows(es: seq<Entry>, more: seq<Entry>, ns: byte, key: seq<byte>)
    requires ReadBlob(es, ns, key).Some?
    ensures ReadBlob(es + more, ns, key) == ReadBlob(es, ns, key)
  {
    FindGrows(es, more, ns, key, BLOB_IDX, CHUNK_ANY);
    var index := Find(es, ns, key, BLOB_IDX, CHUNK_ANY).value;
    GatherGrows(es, more, ns, key, index.header[29] as nat, index.header[28] as nat);
    hide Find, Gather;
  }

  lemma WrittenUnrelated(crc: Crc, b: Blob, sizes: seq<nat>, ns: byte, key: seq<byte>)
    requires Splits(b, sizes) && (b.ns != ns || b.key != key)
    ensures Unrelated(Written(crc, b, sizes), ns, key)
  {
    var w := Written(crc, b, sizes);
    assert w[|sizes|] == IndexEntry(crc, b, |sizes|);
    SizesBound(sizes);
    IndexFields(crc, b, |sizes|);
    hide Written, IndexEntry, ChunkEntry;
    forall k | 0 <= k < |w|
      ensures !OfBlob(w[k], ns, key)
    {
      if k < |sizes| {
        WrittenAt(crc, b, sizes, k);
        ChunkFields(crc, b, Sum(sizes[..k]), sizes[k], k);
      }
    }
  }

  /** What storing one more value does: `w` are its entries. */
  lemma Stored(es: seq<Entry>, w: seq<Entry>, values: seq<Value>, n: nat)
    requires n < |values| && BlobsReadable(es, values, n) && KeysFree(es, values, n)
    requires values[n].Binary? && FirstUnder(values, n, values[n].blob) ==>
               ReadBlob(es + w, values[n].blob.ns, values[n].blob.key) == Some(values[n].blob.data)
    requires forall k :: n < k < |values| && values[k].Binary? && !SameKey(values[n], values[k].blob) ==>
               Unrelated(w, values[k].blob.ns, values[k].blob.key)
    ensures BlobsReadable(es + w, values, n + 1) && KeysFree(es + w, values, n + 1)
  {
    hide ReadBlob;
    forall k | 0 <= k < n + 1 && values[k].Binary? && FirstUnder(values, k, values[k].blob)
      ensures ReadBlob(es + w, values[k].blob.ns, values[k].blob.key) == Some(values[k].blob.data)
    {
      if k < n {
        ReadGrows(es, w, values[k].blob.ns, values[k].blob.key);
      }
    }
    forall k | n + 1 <= k < |values| && values[k].Binary? && FirstUnder(values, n + 1, values[k].blob)
      ensures Unrelated(es + w, values[k].blob.ns, values[k].blob.key)
    {
      assert FirstUnder(values, n, values[k].blob);
      assert !SameKey(values[n], values[k].blob);
    }
  }

  lemma SingleUnrelated(e: Entry, ns: byte, key: seq<byte>)
    requires PrimitiveKind(e.header[1]) || e.header[1] as nat == SZ
    ensures Unrelated([e], ns, key)
  {
  }

  /** Writes one value; the ghost result holds the entries it took. */
  method WriteValue(nvs: NvsBuilder, v: Value) returns (outcome: Outcome, ghost w: seq<Entry>)
    requires nvs.Valid() && ValueOk(v)
    modifies nvs, nvs.pages
    ensures nvs.Valid() && fresh(set p <- nvs.pages | p !in old(nvs.pages))
    ensures outcome == Done ==> Flatten(nvs.sheets) == Flatten(old(nvs.sheets)) + w
    ensures outcome == Done && v.Binary? && Unrelated(Flatten(old(nvs.sheets)), v.blob.ns, v.blob.key) ==>
              ReadBlob(Flatten(old(nvs.sheets)) + w, v.blob.ns, v.blob.key) == Some(v.blob.data)
    ensures outcome == Done ==>
              forall b: Blob :: !SameKey(v, b) ==> Unrelated(w, b.ns, b.key)
  {
    hide Flatten, ReadBlob, Unrelated;
    w := [];
    match v {
      case Primitive(ns, kind, key, value) =>
        outcome := nvs.WritePrimitive(ns, kind, key, value);
        w := [PrimitiveEntry(nvs.crc, ns, kind, key, value)];
        forall b: Blob {
          SingleUnrelated(w[0], b.ns, b.key);
        }
      case Text(ns, key, data) =>
        outcome := nvs.WriteString(ns, key, data);
        if outcome == Done {
          w := [StringEntry(nvs.crc, ns, key, data)];
          forall b: Blob {
            SingleUnrelated(w[0], b.ns, b.key);
          }
        }
      case Binary(b) =>
        ghost var before := nvs.View();
        outcome := nvs.WriteVarlenBinaryData(b);
        if outcome == Done {
          w := BlobStored(nvs.crc, b, before);
        }
    }
  }

  /** The entries of a blob that was written, with what is needed of them. */
  lemma BlobStored(crc: Crc, b: Blob, s: Store) returns (w: seq<Entry>)
    requires s.Valid() && PutBlob(crc, b, s, 0, 0).1 == Done
    ensures Flatten(PutBlob(crc, b, s, 0, 0).0.pages) == Flatten(s.pages) + w
    ensures Unrelated(Flatten(s.pages), b.ns, b.key) ==>
              ReadBlob(Flatten(s.pages) + w, b.ns, b.key) == Some(b.data)
    ensures forall c: Blob :: b.ns != c.ns || b.key != c.key ==> Unrelated(w, c.ns, c.key)
  {
    hide *;
    PutBlobAppends(crc, b, s, 0, 0);
    var before := Flatten(s.pages);
    var sizes := AppendedWritten(crc, b, s, PutBlob(crc, b, s, 0, 0).0);
    w := Written(crc, b, sizes);
    if Unrelated(before, b.ns, b.key) {
      ReadsBack(crc, b, before, sizes, []);
      assert before + w + [] == before + w;
    }
    forall c: Blob | b.ns != c.ns || b.key != c.key
      ensures Unrelated(w, c.ns, c.key)
    {
      WrittenUnrelated(crc, b, sizes, c.ns, c.key);
    }
  }

  /**
   * A whole run: the image has exactly the requested size, and every blob that is the first under its key
   * is read back from its bytes.
   */
  method MakeImage(crc: Crc, inputSize: nat, values: seq<Value>) returns (outcome: Outcome, image: seq<byte>)
    requires inputSize % PAGE_SIZE == 0 && inputSize > 0
    requires forall k :: 0 <= k < |values| ==> ValueOk(values[k])
    ensures outcome == Done ==> |image| == inputSize + PAGE_SIZE
    ensures outcome == Done ==> BlobsReadable(ReadImage(image), values, |values|)
  {
    hide Flatten, ReadBlob, BlobsReadable, KeysFree, PageOk, PageHeader, ReadImage, ValueOk, NvsBuilder.Valid;
    var nvs := new NvsBuilder(crc, inputSize);
    NothingStored(values);
    FlattenOne<Entry>([]);
    image := [];
    var i := 0;
    while i < |values|
      invariant 0 <= i <= |values| && nvs.Valid() && fresh(nvs) && fresh(nvs.pages) && nvs.inputSize == inputSize
      invariant BlobsReadable(Flatten(nvs.sheets), values, i) && KeysFree(Flatten(nvs.sheets), values, i)
    {
      ghost var es := Flatten(nvs.sheets);
      ghost var w;
      outcome, w := WriteValue(nvs, values[i]);
      if outcome != Done {
        return;
      }
      OwnKeyFree(es, values, i);
      Stored(es, w, values, i);
      i := i + 1;
    }
    image := nvs.Finish();
    outcome := Done;
  }

  lemma NothingStored(values: seq<Value>)
    ensures BlobsReadable([], values, 0) && KeysFree([], values, 0)
  {
  }

  lemma OwnKeyFree(es: seq<Entry>, values: seq<Value>, n: nat)
    requires n < |values| && KeysFree(es, values, n)
    ensures values[n].Binary? && FirstUnder(values, n, values[n].blob) ==>
              Unrelated(es, values[n].blob.ns, values[n].blob.key)
  {
  }
}
