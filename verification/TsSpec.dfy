/** MPEG-TS demultiplexing (ISO/IEC 13818-1, sections 2.4.3 and 2.4.4) as a function of the input bytes. */
module TsSpec {
  import opened Bytes
  import opened Machine

  const PACKET := 188
  const BLOCK := 3008
  const SYNC: byte := 0x47

  /** The PID table; -1 marks a PID not known yet. It survives a segment. */
  datatype Pids = Pids(pmt: int, audio: int, meta: int)

  /** What packets change: the table, how much of a PES header is yet to come, the continuity count. */
  datatype Core = Core(pids: Pids, skip: nat, lastCc: int, lost: nat)

  /** A core, the bytes of an incomplete packet, and the payload not yet handed to the sink. */
  datatype State = State(core: Core, pkt: seq<byte>, batch: seq<byte>)

  function Fresh(pids: Pids): State {
    State(Core(pids, 0, -1, 0), [], [])
  }

  // ---- program tables

  function Min(a: int, b: int): int { if a < b then a else b }

  /** The end of a section's body: its length field without the CRC, cut at the end of the data. */
  function SectionEnd(s: seq<byte>): int
    requires |s| >= 3
  {
    Min(s[1] as int % 16 * 256 + s[2] as int - 1, |s|)
  }

  function Pid(s: seq<byte>, i: nat): int
    requires i + 2 <= |s|
  {
    s[i] as int % 32 * 256 + s[i + 1] as int
  }

  /** The PMT PID of the first program from entry `i` on that is not the network entry. */
  function FirstProgram(s: seq<byte>, i: nat, end: int, pmt: int): int
    requires end <= |s|
    decreases end - i
  {
    if i + 4 > end then pmt
    else if s[i] != 0 || s[i + 1] != 0 then Pid(s, i + 2)
    else FirstProgram(s, i + 4, end, pmt)
  }

  function Pat(pids: Pids, s: seq<byte>): Pids {
    if |s| < 12 || s[0] != 0 then pids else pids.(pmt := FirstProgram(s, 8, SectionEnd(s), pids.pmt))
  }

  function StreamEntry(pids: Pids, s: seq<byte>, i: nat): Pids
    requires i + 5 <= |s|
  {
    if s[i] == 0x0F && pids.audio < 0 then pids.(audio := Pid(s, i + 1))
    else if s[i] == 0x15 && pids.meta < 0 then pids.(meta := Pid(s, i + 1))
    else pids
  }

  /** The elementary streams from entry `i` on; the first AAC and the first metadata stream are taken. */
  function Streams(pids: Pids, s: seq<byte>, i: nat, end: int): Pids
    requires end <= |s|
    decreases end - i
  {
    if i + 5 > end then pids
    else Streams(StreamEntry(pids, s, i), s, i + 5 + (s[i + 3] as int % 16 * 256 + s[i + 4] as int), end)
  }

  function Pmt(pids: Pids, s: seq<byte>): Pids {
    if |s| < 16 || s[0] != 2 then pids
    else Streams(pids, s, 12 + (s[10] as int % 16 * 256 + s[11] as int), SectionEnd(s))
  }

  // ---- one packet

  /** Where the payload of a packet starts; PACKET or more when there is none. */
  function PayloadStart(p: seq<byte>): nat
    requires |p| == PACKET
  {
    var control := p[3] as int / 16 % 4;
    if control % 2 == 0 then PACKET else if control == 3 then 5 + p[4] as int else 4
  }

  /** A table packet that starts a section. */
  function Table(pids: Pids, pid: int, pl: seq<byte>): Pids
    requires pl != []
  {
    var at := 1 + pl[0] as int;
    if at >= |pl| then pids else if pid == 0 then Pat(pids, pl[at..]) else Pmt(pids, pl[at..])
  }

  /** How long the PES header is at a payload start, and whether the payload is usable. */
  function PesStart(skip: nat, unitStart: bool, pl: seq<byte>): Option<nat> {
    if !unitStart then Some(skip)
    else if |pl| < 9 || pl[0] != 0 || pl[1] != 0 || pl[2] != 1 then None
    else Some(9 + pl[8] as int)
  }

  function Count(c: Core, cc: int): Core {
    c.(lastCc := cc, lost := if c.lastCc >= 0 && cc != c.lastCc && cc != (c.lastCc + 1) % 16 then c.lost + 1 else c.lost)
  }

  function AudioPacket(c: Core, cc: int, unitStart: bool, pl: seq<byte>): (Core, seq<byte>) {
    var k := Count(c, cc);
    match PesStart(c.skip, unitStart, pl)
    case None => (k.(skip := 0), [])
    case Some(skip) =>
      var n := if skip < |pl| then skip else |pl|;
      (k.(skip := skip - n), pl[n..])
  }

  /** What a packet does, and the elementary stream bytes it carries. */
  function Packet(c: Core, p: seq<byte>): (Core, seq<byte>)
    requires |p| == PACKET
  {
    var unitStart, pid := p[1] as int / 64 % 2 == 1, Pid(p, 1);
    if p[0] != SYNC || p[1] >= 0x80 || PayloadStart(p) >= PACKET then (c, [])
    else
      var pl := p[PayloadStart(p)..];
      if pid == 0 || pid == c.pids.pmt then
        (if unitStart then c.(pids := Table(c.pids, pid, pl)) else c, [])
      else if c.pids.meta >= 0 && pid == c.pids.meta then (c, [])
      else if pid != c.pids.audio then (c, [])
      else AudioPacket(c, p[3] as int % 16, unitStart, pl)
  }

  // ---- batching

  /** The full blocks of a byte string, and what is left. */
  function Blocks(d: seq<byte>): (r: seq<seq<byte>>)
    ensures forall b :: b in r ==> |b| == BLOCK
    decreases |d|
  {
    if |d| < BLOCK then [] else [d[..BLOCK]] + Blocks(d[BLOCK..])
  }

  function Remainder(d: seq<byte>): (r: seq<byte>)
    ensures |r| < BLOCK
    decreases |d|
  {
    if |d| < BLOCK then d else Remainder(d[BLOCK..])
  }

  /** Nothing is lost by batching. */
  lemma {:induction false} BlocksCover(d: seq<byte>)
    ensures Flatten(Blocks(d)) + Remainder(d) == d
    decreases |d|
  {
    if |d| >= BLOCK {
      BlocksCover(d[BLOCK..]);
      FlattenFirst(Blocks(d));
      assert Blocks(d)[1..] == Blocks(d[BLOCK..]);
      assert d == d[..BLOCK] + d[BLOCK..];
    }
  }

  /** Batching in two steps is batching at once. */
  lemma {:induction false} BlocksAppend(d: seq<byte>, e: seq<byte>)
    ensures Blocks(d + e) == Blocks(d) + Blocks(Remainder(d) + e)
    ensures Remainder(d + e) == Remainder(Remainder(d) + e)
    decreases |d|
  {
    if |d| >= BLOCK {
      BlocksAppend(d[BLOCK..], e);
      assert (d + e)[BLOCK..] == d[BLOCK..] + e && (d + e)[..BLOCK] == d[..BLOCK];
    } else {
      var o := Blocks(d + e);
      assert [] + o == o;
    }
  }

  // ---- one byte

  /** A complete packet: its payload joins the batch, full blocks go to the sink. */
  function TakePacket(s: State, p: seq<byte>): Run<State, seq<byte>>
    requires |p| == PACKET
  {
    var (core, payload) := Packet(s.core, p);
    Run(State(core, [], Remainder(s.batch + payload)), Blocks(s.batch + payload), true)
  }

  function TsByte(s: State, b: byte): Run<State, seq<byte>> {
    if s.pkt == [] && b != SYNC then Run(s, [], true)
    else
      var p := s.pkt + [b];
      if |p| == PACKET then TakePacket(s, p) else Run(s.(pkt := p), [], true)
  }

  function Demux(): Step<State, byte, seq<byte>> {
    (s: State, b: byte) => TsByte(s, b)
  }

  /** Bytes of one packet. */
  lemma {:induction false} Accumulate(s: State, d: seq<byte>)
    requires d != [] && |s.pkt| + |d| <= PACKET && (s.pkt == [] ==> d[0] == SYNC)
    ensures Feed(Demux(), s, d) ==
            if |s.pkt| + |d| == PACKET then TakePacket(s, s.pkt + d) else Run(s.(pkt := s.pkt + d), [], true)
    decreases |d|
  {
    hide Feed, Then, Packet, Blocks, Remainder;
    var last := |d| - 1;
    FeedLast(Demux(), s, d);
    assert s.pkt + d == s.pkt + d[..last] + [d[last]];
    if last > 0 {
      Accumulate(s, d[..last]);
    } else {
      assert d[..last] == [] && s.pkt + [] == s.pkt;
      FeedNone(Demux(), s);
    }
  }
}
