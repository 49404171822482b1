/** A transport stream multiplexer for one audio PID, and the proof that the demuxer undoes it. */
module TsMux {
  import opened Bytes
  import opened Machine
  import opened TsSpec
  import opened TsTheorems
  import opened Ts

  // ---- packets

  /** The fields of a packet header a multiplexer may choose freely, and its adaptation stuffing. */
  datatype Extra = Extra(priority: bool, scrambling: nat, cc: nat, stuffing: seq<byte>)

  predicate Fits(x: Extra, chunk: seq<byte>) {
    && x.scrambling < 4 && x.cc < 16 && 1 <= |chunk| <= 184
    && |x.stuffing| == if |chunk| == 184 then 0 else 183 - |chunk|
  }

  /** A packet that carries `chunk`, filled up with an adaptation field when it is shorter than 184 bytes. */
  function PacketOf(pid: nat, unitStart: bool, x: Extra, chunk: seq<byte>): (p: seq<byte>)
    requires pid < 0x2000 && Fits(x, chunk)
    ensures |p| == PACKET && p[0] == SYNC
  {
    var full := |chunk| == 184;
    [ SYNC,
      (if unitStart then 64 else 0) + (if x.priority then 32 else 0) + pid / 256,
      pid % 256,
      x.scrambling * 64 + (if full then 16 else 48) + x.cc ]
    + (if full then [] else [|x.stuffing|] + x.stuffing)
    + chunk
  }

  lemma PacketFields(pid: nat, unitStart: bool, x: Extra, chunk: seq<byte>)
    requires pid < 0x2000 && Fits(x, chunk)
    ensures var p := PacketOf(pid, unitStart, x, chunk);
            && p[1] < 0x80 && (p[1] as int / 64 % 2 == 1 <==> unitStart) && Pid(p, 1) == pid
            && p[3] as int % 16 == x.cc
            && PayloadStart(p) == PACKET - |chunk| && p[PayloadStart(p)..] == chunk
  {
    var p := PacketOf(pid, unitStart, x, chunk);
    var b1 := (if unitStart then 64 else 0) + (if x.priority then 32 else 0) + pid / 256;
    assert p[1] as int == b1 && pid / 256 < 32 && b1 % 32 == pid / 256;
    assert p[2] as int == pid % 256;
    var b3 := x.scrambling * 64 + (if |chunk| == 184 then 16 else 48) + x.cc;
    assert p[3] as int == b3 && b3 % 16 == x.cc;
    assert b3 / 16 == x.scrambling * 4 + (if |chunk| == 184 then 1 else 3);
    assert |chunk| < 184 ==> p[4] as int == |x.stuffing|;
    assert p[PACKET - |chunk|..] == chunk;
  }

  /** The PID the demuxer listens to, not shadowed by the tables or the metadata stream. */
  predicate Listening(pids: Pids) {
    && 0 < pids.audio < 0x2000 && pids.audio != pids.pmt && pids.audio != pids.meta
  }

  lemma AudioPacketOf(c: Core, unitStart: bool, x: Extra, chunk: seq<byte>)
    requires Listening(c.pids) && Fits(x, chunk)
    ensures Packet(c, PacketOf(c.pids.audio, unitStart, x, chunk)) == AudioPacket(c, x.cc, unitStart, chunk)
  {
    hide AudioPacket, PacketOf, PayloadStart, Pid;
    PacketFields(c.pids.audio, unitStart, x, chunk);
  }

  /** A packet of another PID than the audio PID, or one that carries no payload. */
  predicate Ignored(pids: Pids, p: seq<byte>) {
    && |p| == PACKET && p[0] == SYNC
    && (Pid(p, 1) != pids.audio || p[1] >= 0x80 || PayloadStart(p) >= PACKET)
  }

  /** It may change the PID table and nothing else. */
  lemma IgnoredPacket(c: Core, p: seq<byte>)
    requires Ignored(c.pids, p)
    ensures Packet(c, p) == (c.(pids := Packet(Fresh(c.pids).core, p).0.pids), [])
  {
    hide Table, PayloadStart, Pid;
  }

  // ---- what the audio packets of a stream add up to

  /** One packet's worth of a PES packet. */
  datatype Chunk = Chunk(unitStart: bool, extra: Extra, data: seq<byte>)

  datatype Entry = Audio(chunk: Chunk) | Other(packet: seq<byte>)

  predicate EntryOk(pids: Pids, e: Entry) {
    match e
    case Audio(k) => Listening(pids) && Fits(k.extra, k.data)
    case Other(p) => Ignored(pids, p)
  }

  /** The PID table behind an entry, and behind all of them. */
  function TableAfter(pids: Pids, e: Entry): Pids
    requires EntryOk(pids, e)
  {
    match e
    case Audio(k) => pids
    case Other(p) => Packet(Fresh(pids).core, p).0.pids
  }

  function TableBehind(pids: Pids, es: seq<Entry>): Pids
    requires EntriesOk(pids, es)
    decreases |es|
  {
    if es == [] then pids else TableBehind(TableAfter(pids, es[0]), es[1..])
  }

  /** Audio is sent under the PID the tables sent so far announce, and nothing else is. */
  predicate EntriesOk(pids: Pids, es: seq<Entry>)
    decreases |es|
  {
    es == [] || (EntryOk(pids, es[0]) && EntriesOk(TableAfter(pids, es[0]), es[1..]))
  }

  function CodedEntry(pids: Pids, e: Entry): (p: seq<byte>)
    requires EntryOk(pids, e)
    ensures |p| == PACKET && p[0] == SYNC
  {
    match e
    case Audio(k) => PacketOf(pids.audio, k.unitStart, k.extra, k.data)
    case Other(p) => p
  }

  function Coded(pids: Pids, es: seq<Entry>): (r: seq<seq<byte>>)
    requires EntriesOk(pids, es)
    ensures |r| == |es|
    ensures forall p :: p in r ==> |p| == PACKET && p[0] == SYNC
    decreases |es|
  {
    if es == [] then [] else [CodedEntry(pids, es[0])] + Coded(TableAfter(pids, es[0]), es[1..])
  }

  function AudioChunks(es: seq<Entry>): seq<Chunk> {
    if es == [] then [] else (if es[0].Audio? then [es[0].chunk] else []) + AudioChunks(es[1..])
  }

  /** The elementary stream of consecutive chunks, and how much of a PES header the next chunks have yet to bring. */
  function Unpack(skip: nat, ks: seq<Chunk>): (nat, seq<byte>)
    decreases |ks|
  {
    if ks == [] then (skip, [])
    else
      var (s1, d1) := UnpackOne(skip, ks[0]);
      var (s2, d2) := Unpack(s1, ks[1..]);
      (s2, d1 + d2)
  }

  function UnpackOne(skip: nat, k: Chunk): (nat, seq<byte>) {
    match PesStart(skip, k.unitStart, k.data)
    case None => (0, [])
    case Some(n) => var m := Min(n, |k.data|); (n - m, k.data[m..])
  }

  lemma AudioStep(c: Core, k: Chunk)
    requires Listening(c.pids) && Fits(k.extra, k.data)
    ensures var (c1, d) := Packet(c, PacketOf(c.pids.audio, k.unitStart, k.extra, k.data));
            c1.pids == c.pids && (c1.skip, d) == UnpackOne(c.skip, k)
  {
    hide Packet, PacketOf, PesStart;
    AudioPacketOf(c, k.unitStart, k.extra, k.data);
  }

  /** One entry of either kind. */
  lemma EntryCarries(c: Core, e: Entry)
    requires EntryOk(c.pids, e)
    ensures
      var (c1, d) := Packet(c, CodedEntry(c.pids, e));
      && c1.pids == TableAfter(c.pids, e)
      && (c1.skip, d) == (match e case Audio(k) => UnpackOne(c.skip, k) case Other(_) => (c.skip, []))
  {
    hide Packet, PacketOf, UnpackOne, Ignored, Listening, Fits;
    match e {
      case Audio(k) => AudioStep(c, k);
      case Other(p) => IgnoredPacket(c, p);
    }
  }

  /** Packets of other PIDs make no difference, wherever they are. */
  lemma {:induction false} CarryUnpacks(c: Core, es: seq<Entry>)
    requires EntriesOk(c.pids, es)
    ensures
      var (core, d) := Carry(c, Coded(c.pids, es));
      core.pids == TableBehind(c.pids, es) && (core.skip, d) == Unpack(c.skip, AudioChunks(es))
    decreases |es|
  {
    if es != [] {
      hide Packet, EntryOk, TableAfter, CodedEntry, UnpackOne;
      var ps, rest := Coded(c.pids, es), Coded(TableAfter(c.pids, es[0]), es[1..]);
      assert ps[0] == CodedEntry(c.pids, es[0]) && ps[1..] == rest;
      EntryCarries(c, es[0]);
      CarryUnpacks(Packet(c, ps[0]).0, es[1..]);
      ChunksFirst(es);
      var d := Carry(Packet(c, ps[0]).0, rest).1;
      assert [] + d == d;
    }
  }

  lemma ChunksFirst(es: seq<Entry>)
    requires es != []
    ensures es[0].Other? ==> AudioChunks(es) == AudioChunks(es[1..])
    ensures es[0].Audio? ==> AudioChunks(es) != [] && AudioChunks(es)[0] == es[0].chunk && AudioChunks(es)[1..] == AudioChunks(es[1..])
  {
  }

  // ---- PES packets

  /** A PES packet: five free header bytes, an optional header of any length, and elementary stream bytes. */
  datatype Pes = Pes(head: seq<byte>, options: seq<byte>, es: seq<byte>)

  predicate PesOk(u: Pes) { |u.head| == 5 && |u.options| <= 255 }

  function PesCode(u: Pes): (r: seq<byte>)
    requires PesOk(u)
    ensures |r| == 9 + |u.options| + |u.es|
  {
    [0, 0, 1] + u.head + [|u.options|] + u.options + u.es
  }

  /** A PES packet cut into chunks: the first starts the unit and holds the nine fixed header bytes. */
  datatype Unit = Unit(pes: Pes, chunks: seq<Chunk>)

  function Data(ks: seq<Chunk>): seq<byte> {
    if ks == [] then [] else ks[0].data + Data(ks[1..])
  }

  predicate UnitOk(u: Unit) {
    && PesOk(u.pes) && u.chunks != [] && Data(u.chunks) == PesCode(u.pes)
    && |u.chunks[0].data| >= 9 && u.chunks[0].unitStart
    && forall i :: 1 <= i < |u.chunks| ==> !u.chunks[i].unitStart
  }

  /** Chunks that continue a unit: `skip` more bytes are header. */
  lemma {:induction false} Continuation(skip: nat, ks: seq<Chunk>, more: seq<Chunk>)
    requires forall k :: k in ks ==> !k.unitStart
    requires skip <= |Data(ks)|
    ensures Unpack(skip, ks + more) == (Unpack(0, more).0, Data(ks)[skip..] + Unpack(0, more).1)
  {
    hide Unpack;
    var d := Unpack(0, more).1;
    if ks == [] {
      assert ks + more == more;
      assert Data(ks)[skip..] + d == d;
    } else {
      var n, k, rest := Min(skip, |ks[0].data|), ks[0].data, Data(ks[1..]);
      Continuation(skip - n, ks[1..], more);
      ContinuationStep(skip, ks[0], ks[1..] + more);
      assert ks + more == [ks[0]] + (ks[1..] + more) && Data(ks) == k + rest;
      assert k[n..] + (rest[skip - n..] + d) == (k + rest)[skip..] + d;
    }
  }

  lemma ContinuationStep(skip: nat, k: Chunk, rest: seq<Chunk>)
    requires !k.unitStart
    ensures var n := Min(skip, |k.data|);
            var (s, d) := Unpack(skip - n, rest);
            Unpack(skip, [k] + rest) == (s, k.data[n..] + d)
  {
    assert ([k] + rest)[1..] == rest;
  }

  /** What the first chunk of a unit holds, and that the rest of the unit follows. */
  lemma UnitStarts(u: Unit)
    requires UnitOk(u)
    ensures
      var first, rest, head := u.chunks[0].data, u.chunks[1..], 9 + |u.pes.options|;
      && PesStart(0, true, first) == Some(head) && first + Data(rest) == PesCode(u.pes)
      && head + |u.pes.es| == |first| + |Data(rest)| && (first + Data(rest))[head..] == u.pes.es
  {
    var first, code := u.chunks[0].data, PesCode(u.pes);
    assert first == code[..|first|] && first[8] as int == |u.pes.options|;
    assert code[9 + |u.pes.options|..] == u.pes.es;
  }

  lemma StartIgnoresSkip(skip: nat, pl: seq<byte>)
    ensures PesStart(skip, true, pl) == PesStart(0, true, pl)
  {
  }

  /** The bytes behind the header, of the first chunk and of the others. */
  lemma BehindHeader(first: seq<byte>, rest: seq<byte>, head: nat, es: seq<byte>, d: seq<byte>)
    requires head <= |first| + |rest| && (first + rest)[head..] == es
    ensures
      var n := Min(head, |first|);
      first[n..] + (rest[head - n..] + d) == es + d
  {
    var n := Min(head, |first|);
    assert first[n..] + rest[head - n..] == (first + rest)[head..];
  }

  /** A whole unit yields its elementary stream bytes, whatever was still to be discarded before it. */
  lemma UnitUnpacks(skip: nat, u: Unit, more: seq<Chunk>)
    requires UnitOk(u)
    ensures Unpack(skip, u.chunks + more) == (Unpack(0, more).0, u.pes.es + Unpack(0, more).1)
  {
    UnitStarts(u);
    assert u.chunks[0].unitStart && forall k :: k in u.chunks[1..] ==> !k.unitStart;
    hide UnitOk, PesCode, PesStart, Data;
    var k, rest, head := u.chunks[0], u.chunks[1..], 9 + |u.pes.options|;
    StartIgnoresSkip(skip, k.data);
    assert u.chunks + more == [k] + (rest + more);
    UnpackStart(skip, k, rest + more, head);
    hide Unpack;
    var n := Min(head, |k.data|);
    Continuation(head - n, rest, more);
    BehindHeader(k.data, Data(rest), head, u.pes.es, Unpack(0, more).1);
  }

  lemma UnpackStart(skip: nat, k: Chunk, rest: seq<Chunk>, head: nat)
    requires k.unitStart && PesStart(skip, true, k.data) == Some(head)
    ensures
      var n := Min(head, |k.data|);
      var (s, d) := Unpack(head - n, rest);
      Unpack(skip, [k] + rest) == (s, k.data[n..] + d)
  {
    assert ([k] + rest)[1..] == rest;
    hide PesStart;
  }

  function UnitChunks(us: seq<Unit>): seq<Chunk> {
    if us == [] then [] else us[0].chunks + UnitChunks(us[1..])
  }

  function Streamed(us: seq<Unit>): seq<byte> {
    if us == [] then [] else us[0].pes.es + Streamed(us[1..])
  }

  lemma {:induction false} UnitsUnpack(skip: nat, us: seq<Unit>)
    requires forall u :: u in us ==> UnitOk(u)
    ensures Unpack(skip, UnitChunks(us)).1 == Streamed(us)
  {
    if us != [] {
      UnitUnpacks(skip, us[0], UnitChunks(us[1..]));
      UnitsUnpack(0, us[1..]);
    }
  }

  // ---- the multiplexed bytes

  lemma {:induction false} PacketsOfCoded(ps: seq<seq<byte>>)
    requires forall p :: p in ps ==> |p| == PACKET && p[0] == SYNC
    ensures Packets(Flatten(ps)) == ps
  {
    if ps != [] {
      PacketsOfCoded(ps[1..]);
      var d := Flatten(ps);
      assert d == ps[0] + Flatten(ps[1..]) && d[..PACKET] == ps[0] && d[PACKET..] == Flatten(ps[1..]);
      assert ps == [ps[0]] + ps[1..];
    }
  }

  /**
   * Demultiplexing undoes multiplexing: however PES packets are cut into TS packets, stuffed and mixed
   * with tables and packets of other PIDs, what the stream carries is the concatenation of their payloads.
   */
  lemma DemuxUndoesMux(pids: Pids, entries: seq<Entry>, us: seq<Unit>)
    requires EntriesOk(pids, entries)
    requires (forall u :: u in us ==> UnitOk(u)) && AudioChunks(entries) == UnitChunks(us)
    ensures
      var (core, d) := Carry(Fresh(pids).core, Packets(Flatten(Coded(pids, entries))));
      core.pids == TableBehind(pids, entries) && d == Streamed(us)
  {
    hide Carry, Packets, Flatten, Coded, Unpack, EntriesOk;
    PacketsOfCoded(Coded(pids, entries));
    CarryUnpacks(Fresh(pids).core, entries);
    UnitsUnpack(0, us);
  }

  /**
   * The whole way: a multiplexed segment, delivered in reads of any size, leaves the concatenated PES
   * payloads with the sink by the end of the segment.
   */
  method PlayMuxed(c: TsDemuxer, pieces: seq<seq<byte>>, ghost entries: seq<Entry>, ghost us: seq<Unit>)
    requires c.Valid() && c.View() == Fresh(c.pids)
    requires EntriesOk(c.pids, entries)
    requires (forall u :: u in us ==> UnitOk(u)) && AudioChunks(entries) == UnitChunks(us)
    requires Flatten(pieces) == Flatten(Coded(c.pids, entries))
    modifies c, c.pkt, c.out
    ensures c.Valid() && c.View() == Fresh(TableBehind(old(c.pids), entries))
    ensures |old(c.sunk)| <= |c.sunk| && Flatten(c.sunk[|old(c.sunk)|..]) == Streamed(us)
  {
    hide Carry, Packets, Flatten, Coded, TableBehind, EntriesOk;
    DemuxUndoesMux(c.pids, entries, us);
    c.PlaySegment(pieces);
  }
}
