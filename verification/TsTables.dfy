/**
 * The program tables of a transport stream (ISO/IEC 13818-1, sections 2.4.4.3 and 2.4.4.8) as a multiplexer
 * writes them, what the demuxer learns from them, and the first segment of a stream.
 */
module TsTables {
  import opened Bytes
  import opened Machine
  import opened TsSpec
  import opened TsTheorems
  import opened TsMux
  import opened Ts

  // ---- sections

  datatype Program = Program(number: nat, pid: nat)

  predicate ProgramOk(p: Program) { p.number < 0x1_0000 && p.pid < 0x2000 }

  function ProgramCode(p: Program): (r: seq<byte>)
    requires ProgramOk(p)
    ensures |r| == 4
  {
    [p.number / 256, p.number % 256, 0xE0 + p.pid / 256, p.pid % 256]
  }

  function ProgramCodes(ps: seq<Program>): (r: seq<byte>)
    requires forall p :: p in ps ==> ProgramOk(p)
    ensures |r| == 4 * |ps|
  {
    if ps == [] then [] else ProgramCode(ps[0]) + ProgramCodes(ps[1..])
  }

  datatype Stream = Stream(kind: byte, pid: nat, info: seq<byte>)

  predicate StreamOk(t: Stream) { t.pid < 0x2000 && |t.info| < 0x1000 }

  function StreamCode(t: Stream): (r: seq<byte>)
    requires StreamOk(t)
    ensures |r| == 5 + |t.info|
  {
    [t.kind, 0xE0 + t.pid / 256, t.pid % 256, 0xF0 + |t.info| / 256, |t.info| % 256] + t.info
  }

  function StreamCodes(ts: seq<Stream>): seq<byte>
    requires forall t :: t in ts ==> StreamOk(t)
  {
    if ts == [] then [] else StreamCode(ts[0]) + StreamCodes(ts[1..])
  }

  /** A section: its table, its length, a body, and a checksum of four bytes. */
  function Section(table: byte, body: seq<byte>, crc: seq<byte>): (r: seq<byte>)
    requires |body| + |crc| < 0x1000
    ensures |r| == 3 + |body| + |crc|
  {
    [table, 0xB0 + (|body| + |crc|) / 256, (|body| + |crc|) % 256] + body + crc
  }

  /** A program association table; `head` holds its five bytes of identification and version. */
  datatype PatTable = PatTable(head: seq<byte>, programs: seq<Program>, crc: seq<byte>)

  predicate PatOk(t: PatTable) {
    && |t.head| == 5 && |t.crc| == 4 && 4 * |t.programs| + 9 < 0x1000
    && forall p :: p in t.programs ==> ProgramOk(p)
  }

  function PatCode(t: PatTable): seq<byte>
    requires PatOk(t)
  {
    Section(0, t.head + ProgramCodes(t.programs), t.crc)
  }

  /** A program map table; `head` holds its seven bytes of identification, version and clock PID. */
  datatype PmtTable = PmtTable(head: seq<byte>, info: seq<byte>, streams: seq<Stream>, crc: seq<byte>)

  predicate PmtOk(t: PmtTable) {
    && |t.head| == 7 && |t.crc| == 4 && (forall s :: s in t.streams ==> StreamOk(s))
    && |t.info| + |StreamCodes(t.streams)| + 13 < 0x1000
  }

  function PmtCode(t: PmtTable): seq<byte>
    requires PmtOk(t)
  {
    Section(2, t.head + [0xF0 + |t.info| / 256, |t.info| % 256] + t.info + StreamCodes(t.streams), t.crc)
  }

  // ---- what the tables announce

  /** The PID of the first program that is not the network entry, if there is one. */
  function ProgramPid(ps: seq<Program>, known: int): int {
    if ps == [] then known else if ps[0].number != 0 then ps[0].pid else ProgramPid(ps[1..], known)
  }

  /** The PID of the first stream of a kind, unless one is known already. */
  function Announced(kind: byte, ts: seq<Stream>, known: int): int {
    if known >= 0 || ts == [] then known else if ts[0].kind == kind then ts[0].pid else Announced(kind, ts[1..], known)
  }

  const AAC: byte := 0x0F
  const METADATA: byte := 0x15

  // ---- reading them back

  lemma PidBytes(high: nat, pid: nat)
    requires pid < 0x2000 && high % 32 == 0
    ensures (high + pid / 256) % 32 * 256 + pid % 256 == pid
  {
    assert (high + pid / 256) % 32 == pid / 256;
  }

  lemma LengthBytes(high: nat, n: nat)
    requires n < 0x1000 && high % 16 == 0
    ensures (high + n / 256) % 16 * 256 + n % 256 == n
  {
    assert (high + n / 256) % 16 == n / 256;
  }

  /** The end of a section's body is found, whatever stuffing follows the section. */
  lemma SectionEnds(table: byte, body: seq<byte>, crc: seq<byte>, stuffing: seq<byte>)
    requires |body| + |crc| < 0x1000 && |crc| == 4
    ensures
      var s := Section(table, body, crc) + stuffing;
      |s| >= 7 + |body| && s[0] == table && SectionEnd(s) == 3 + |body| && s[3..3 + |body|] == body
  {
    LengthBytes(0xB0, |body| + |crc|);
  }

  lemma {:induction false} ProgramsRead(s: seq<byte>, i: nat, end: nat, ps: seq<Program>, known: int)
    requires forall p :: p in ps ==> ProgramOk(p)
    requires i <= end <= |s| && s[i..end] == ProgramCodes(ps)
    ensures FirstProgram(s, i, end, known) == ProgramPid(ps, known)
    decreases |ps|
  {
    if ps != [] {
      var first, rest := ProgramCode(ps[0]), ProgramCodes(ps[1..]);
      assert s[i..end][..4] == first && s[i..end][4..] == rest;
      assert s[i] == first[0] && s[i + 1] == first[1] && s[i + 2] == first[2] && s[i + 3] == first[3];
      assert s[i + 4..end] == rest;
      assert ps[0] in ps;
      PidBytes(0xE0, ps[0].pid);
      ProgramsRead(s, i + 4, end, ps[1..], known);
    }
  }

  lemma {:induction false} StreamsRead(pids: Pids, s: seq<byte>, i: nat, end: nat, ts: seq<Stream>)
    requires forall t :: t in ts ==> StreamOk(t)
    requires i <= end <= |s| && s[i..end] == StreamCodes(ts)
    ensures
      Streams(pids, s, i, end) ==
      pids.(audio := Announced(AAC, ts, pids.audio), meta := Announced(METADATA, ts, pids.meta))
    decreases |ts|
  {
    if ts != [] {
      assert ts[0] in ts;
      StreamRead(pids, s, i, end, ts);
      StreamsRead(StreamEntry(pids, s, i), s, i + 5 + |ts[0].info|, end, ts[1..]);
    }
  }

  /** The first stream of some. */
  lemma StreamRead(pids: Pids, s: seq<byte>, i: nat, end: nat, ts: seq<Stream>)
    requires ts != [] && (forall t :: t in ts ==> StreamOk(t))
    requires i <= end <= |s| && s[i..end] == StreamCodes(ts)
    ensures
      var next := i + 5 + |ts[0].info|;
      && next <= end && s[next..end] == StreamCodes(ts[1..])
      && s[i] == ts[0].kind && Pid(s, i + 1) == ts[0].pid
      && s[i + 3] as int % 16 * 256 + s[i + 4] as int == |ts[0].info|
  {
    assert ts[0] in ts;
    var first, rest := StreamCode(ts[0]), StreamCodes(ts[1..]);
    Slices(s, i, end, first, rest);
    StreamFields(ts[0]);
    hide StreamCode, StreamCodes, Pid;
    SamePid(s, i, first);
  }

  lemma Slices(s: seq<byte>, i: nat, end: nat, first: seq<byte>, rest: seq<byte>)
    requires i <= end <= |s| && s[i..end] == first + rest
    ensures end == i + |first| + |rest| && s[i + |first|..end] == rest
    ensures forall k :: 0 <= k < |first| ==> s[i + k] == first[k]
  {
    var part := s[i..end];
    assert forall k :: 0 <= k < |first| ==> s[i + k] == part[k] == first[k];
    assert forall k :: 0 <= k < |rest| ==> s[i + |first| + k] == part[|first| + k] == rest[k];
  }

  lemma SamePid(s: seq<byte>, i: nat, first: seq<byte>)
    requires 5 <= |first| && i + |first| <= |s| && forall k :: 0 <= k < |first| ==> s[i + k] == first[k]
    ensures
      && s[i] == first[0] && Pid(s, i + 1) == Pid(first, 1)
      && s[i + 3] == first[3] && s[i + 4] == first[4]
  {
    assert s[i + 0] == first[0] && s[i + 1] == first[1] && s[i + 2] == first[2];
  }

  lemma StreamFields(t: Stream)
    requires StreamOk(t)
    ensures
      var c := StreamCode(t);
      c[0] == t.kind && Pid(c, 1) == t.pid && c[3] as int % 16 * 256 + c[4] as int == |t.info|
  {
    PidBytes(0xE0, t.pid);
    LengthBytes(0xF0, |t.info|);
  }

  /** A program association table gives the PID of the program map table. */
  lemma PatReadBack(pids: Pids, t: PatTable, stuffing: seq<byte>)
    requires PatOk(t)
    ensures Pat(pids, PatCode(t) + stuffing) == pids.(pmt := ProgramPid(t.programs, pids.pmt))
  {
    hide FirstProgram, SectionEnd, Section, ProgramPid;
    var body := t.head + ProgramCodes(t.programs);
    var s, end := PatCode(t) + stuffing, 3 + |body|;
    SectionEnds(0, body, t.crc, stuffing);
    assert s[8..end] == body[5..] == ProgramCodes(t.programs);
    ProgramsRead(s, 8, end, t.programs, pids.pmt);
  }

  /** A program map table gives the PIDs of the first AAC and the first metadata stream not known yet. */
  lemma PmtReadBack(pids: Pids, t: PmtTable, stuffing: seq<byte>)
    requires PmtOk(t)
    ensures
      Pmt(pids, PmtCode(t) + stuffing) ==
      pids.(audio := Announced(AAC, t.streams, pids.audio), meta := Announced(METADATA, t.streams, pids.meta))
  {
    hide Streams, SectionEnd, Section, Announced, StreamCodes;
    var fields, codes := [0xF0 + |t.info| / 256, |t.info| % 256], StreamCodes(t.streams);
    var body := t.head + fields + t.info + codes;
    var s, start, end := PmtCode(t) + stuffing, 12 + |t.info|, 3 + |body|;
    SectionEnds(2, body, t.crc, stuffing);
    assert s[10] == s[3..end][7] == fields[0] && s[11] == s[3..end][8] == fields[1];
    LengthBytes(0xF0, |t.info|);
    assert s[start..end] == body[9 + |t.info|..] == codes;
    StreamsRead(pids, s, start, end, t.streams);
  }

  // ---- table packets

  /** A packet that holds one section behind a pointer and filler, with stuffing behind it. */
  datatype Carrier = Carrier(extra: Extra, filler: seq<byte>, stuffing: seq<byte>)

  function Payload(k: Carrier, section: seq<byte>): seq<byte>
    requires |k.filler| < 0x100
  {
    [|k.filler|] + k.filler + (section + k.stuffing)
  }

  predicate Carries(k: Carrier, section: seq<byte>) {
    |k.filler| < 0x100 && section != [] && Fits(k.extra, Payload(k, section))
  }

  function TablePacket(pid: nat, k: Carrier, section: seq<byte>): (p: seq<byte>)
    requires pid < 0x2000 && Carries(k, section)
    ensures |p| == PACKET && p[0] == SYNC
  {
    PacketOf(pid, true, k.extra, Payload(k, section))
  }

  /** What the demuxer makes of such a packet. */
  lemma TableTaken(pids: Pids, pid: nat, k: Carrier, section: seq<byte>)
    requires pid < 0x2000 && Carries(k, section) && (pid == 0 || pid == pids.pmt) && pid != pids.audio
    ensures
      var e := Other(TablePacket(pid, k, section));
      && EntryOk(pids, e)
      && TableAfter(pids, e) == if pid == 0 then Pat(pids, section + k.stuffing) else Pmt(pids, section + k.stuffing)
  {
    hide PacketOf, PayloadStart, Pid, Pat, Pmt, Fits;
    PacketFields(pid, true, k.extra, Payload(k, section));
    var pl := Payload(k, section);
    assert pl[1 + |k.filler|..] == section + k.stuffing;
  }

  // ---- the first segment of a stream

  const NOTHING := Pids(-1, -1, -1)

  /** Packets that come before the tables: of any PID but those of tables known so far, audio included. */
  predicate Early(pmt: int, ps: seq<seq<byte>>) {
    forall p :: p in ps ==> |p| == PACKET && p[0] == SYNC && Pid(p, 1) != 0 && Pid(p, 1) != pmt
  }

  function Others(ps: seq<seq<byte>>): (es: seq<Entry>)
    ensures |es| == |ps|
  {
    if ps == [] then [] else [Other(ps[0])] + Others(ps[1..])
  }

  lemma EntryFirst(pids: Pids, p: seq<byte>, es: seq<Entry>)
    requires EntryOk(pids, Other(p)) && EntriesOk(TableAfter(pids, Other(p)), es)
    ensures
      var all := [Other(p)] + es;
      && EntriesOk(pids, all) && TableBehind(pids, all) == TableBehind(TableAfter(pids, Other(p)), es)
      && AudioChunks(all) == AudioChunks(es)
  {
    assert ([Other(p)] + es)[1..] == es;
    hide EntryOk, TableAfter;
  }

  lemma EarlyPacket(pids: Pids, p: seq<byte>)
    requires |p| == PACKET && p[0] == SYNC && Pid(p, 1) != 0 && Pid(p, 1) != pids.pmt && pids.audio < 0
    ensures EntryOk(pids, Other(p)) && TableAfter(pids, Other(p)) == pids
  {
    hide PayloadStart, Table;
  }

  lemma {:induction false} EarlyIgnored(pmt: int, ps: seq<seq<byte>>, es: seq<Entry>)
    requires Early(pmt, ps) && EntriesOk(Pids(pmt, -1, -1), es)
    ensures
      var all := Others(ps) + es;
      && EntriesOk(Pids(pmt, -1, -1), all)
      && TableBehind(Pids(pmt, -1, -1), all) == TableBehind(Pids(pmt, -1, -1), es)
      && AudioChunks(all) == AudioChunks(es)
    decreases |ps|
  {
    if ps == [] {
      assert Others(ps) + es == es;
    } else {
      hide EntryOk, TableAfter, EntriesOk, TableBehind, AudioChunks;
      var rest := Others(ps[1..]) + es;
      assert ps[0] in ps && Others(ps) + es == [Other(ps[0])] + rest;
      EarlyIgnored(pmt, ps[1..], es);
      EarlyPacket(Pids(pmt, -1, -1), ps[0]);
      EntryFirst(Pids(pmt, -1, -1), ps[0], rest);
    }
  }

  /** The beginning of a stream: both tables, with other packets before and between them. */
  datatype Opening = Opening(lead: seq<seq<byte>>, pat: PatTable, patBy: Carrier,
                             between: seq<seq<byte>>, pmt: PmtTable, pmtBy: Carrier)

  /** The PIDs it announces. */
  function Announces(o: Opening): Pids {
    Pids(ProgramPid(o.pat.programs, -1), Announced(AAC, o.pmt.streams, -1), Announced(METADATA, o.pmt.streams, -1))
  }

  predicate OpeningOk(o: Opening) {
    && PatOk(o.pat) && Carries(o.patBy, PatCode(o.pat)) && PmtOk(o.pmt) && Carries(o.pmtBy, PmtCode(o.pmt))
    && 0 < Announces(o).pmt < 0x2000 && Early(-1, o.lead) && Early(Announces(o).pmt, o.between)
  }

  function Opened(o: Opening, es: seq<Entry>): seq<Entry>
    requires OpeningOk(o)
  {
    var pat, pmt := TablePacket(0, o.patBy, PatCode(o.pat)), TablePacket(Announces(o).pmt, o.pmtBy, PmtCode(o.pmt));
    Others(o.lead) + ([Other(pat)] + (Others(o.between) + ([Other(pmt)] + es)))
  }

  /** A demuxer that knows nothing learns the PIDs from the opening; everything behind it is demultiplexed. */
  lemma OpeningLearned(o: Opening, es: seq<Entry>)
    requires OpeningOk(o) && EntriesOk(Announces(o), es)
    ensures
      && EntriesOk(NOTHING, Opened(o, es)) && TableBehind(NOTHING, Opened(o, es)) == TableBehind(Announces(o), es)
      && AudioChunks(Opened(o, es)) == AudioChunks(es)
  {
    hide EntryOk, TableAfter, TablePacket, PatCode, PmtCode, Carries, Early, PatOk, PmtOk, ProgramPid, Announced;
    hide EntriesOk, TableBehind, AudioChunks;
    var known := Pids(Announces(o).pmt, -1, -1);
    var pat, pmt := TablePacket(0, o.patBy, PatCode(o.pat)), TablePacket(known.pmt, o.pmtBy, PmtCode(o.pmt));
    TableTaken(known, known.pmt, o.pmtBy, PmtCode(o.pmt));
    PmtReadBack(known, o.pmt, o.pmtBy.stuffing);
    EntryFirst(known, pmt, es);
    EarlyIgnored(known.pmt, o.between, [Other(pmt)] + es);
    TableTaken(NOTHING, 0, o.patBy, PatCode(o.pat));
    PatReadBack(NOTHING, o.pat, o.patBy.stuffing);
    EntryFirst(NOTHING, pat, Others(o.between) + ([Other(pmt)] + es));
    EarlyIgnored(-1, o.lead, [Other(pat)] + (Others(o.between) + ([Other(pmt)] + es)));
  }

  /** The bytes of a segment that opens a stream. */
  function FirstSegment(o: Opening, es: seq<Entry>): seq<byte>
    requires OpeningOk(o) && EntriesOk(Announces(o), es)
  {
    OpeningLearned(o, es);
    Flatten(Coded(NOTHING, Opened(o, es)))
  }

  /**
   * From the very first byte: a new demuxer fed with a stream that opens with its tables, in reads of any size,
   * hands the concatenated PES payloads to the sink and knows the announced PIDs.
   */
  method PlayFirst(pieces: seq<seq<byte>>, ghost o: Opening, ghost es: seq<Entry>, ghost us: seq<Unit>)
    returns (c: TsDemuxer)
    requires OpeningOk(o) && EntriesOk(Announces(o), es)
    requires (forall u :: u in us ==> UnitOk(u)) && AudioChunks(es) == UnitChunks(us)
    requires Flatten(pieces) == FirstSegment(o, es)
    ensures fresh(c) && c.Valid() && c.View() == Fresh(TableBehind(Announces(o), es))
    ensures Flatten(c.sunk) == Streamed(us)
  {
    hide EntriesOk, TableBehind, Coded, Flatten, OpeningOk, Opened, Announces;
    OpeningLearned(o, es);
    c := new TsDemuxer();
    PlayMuxed(c, pieces, Opened(o, es), us);
    assert c.sunk[0..] == c.sunk;
  }
}
