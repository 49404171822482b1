/** What the MPEG-TS demuxer is for: it scans packets, loses no payload byte, and undoes a multiplexer. */
module TsTheorems {
  import opened Bytes
  import opened Machine
  import opened TsSpec

  // ---- the plain specification: scan for the sync byte, take a packet, repeat

  function Packets(d: seq<byte>): (r: seq<seq<byte>>)
    ensures forall p :: p in r ==> |p| == PACKET && p[0] == SYNC
    decreases |d|
  {
    if d == [] then []
    else if d[0] != SYNC then Packets(d[1..])
    else if |d| < PACKET then []
    else [d[..PACKET]] + Packets(d[PACKET..])
  }

  /** The bytes of a packet that is still incomplete at the end of the input. */
  function Incomplete(d: seq<byte>): seq<byte>
    decreases |d|
  {
    if d == [] then []
    else if d[0] != SYNC then Incomplete(d[1..])
    else if |d| < PACKET then d
    else Incomplete(d[PACKET..])
  }

  /** The packets one after the other, and the elementary stream they carry. */
  function Carry(c: Core, ps: seq<seq<byte>>): (Core, seq<byte>)
    requires forall p :: p in ps ==> |p| == PACKET
    decreases |ps|
  {
    if ps == [] then (c, [])
    else
      var (c1, d1) := Packet(c, ps[0]);
      var (c2, d2) := Carry(c1, ps[1..]);
      (c2, d1 + d2)
  }

  predicate Synced(s: State) {
    |s.pkt| < PACKET && |s.batch| < BLOCK && (s.pkt != [] ==> s.pkt[0] == SYNC)
  }

  /** The state and the blocks that the plain specification prescribes for input `d`. */
  function Scanned(s: State, d: seq<byte>): Run<State, seq<byte>> {
    var (core, es) := Carry(s.core, Packets(s.pkt + d));
    Run(State(core, Incomplete(s.pkt + d), Remainder(s.batch + es)), Blocks(s.batch + es), true)
  }

  /** A complete packet in front. */
  lemma ScannedPacket(s: State, d: seq<byte>, t: nat)
    requires Synced(s) && t <= |d| && |s.pkt| + t == PACKET && (s.pkt == [] ==> d[0] == SYNC)
    ensures var r := TakePacket(s, s.pkt + d[..t]);
            var q := Scanned(r.st, d[t..]);
            Synced(r.st) && Scanned(s, d) == Run(q.st, r.out + q.out, true)
  {
    hide Packet, Blocks, Remainder;
    var all, p := s.pkt + d, s.pkt + d[..t];
    assert all[..PACKET] == p && all[PACKET..] == d[t..] && [] + d[t..] == d[t..];
    var (c1, d1) := Packet(s.core, p);
    var rest := Packets(d[t..]);
    var (c2, d2) := Carry(c1, rest);
    assert Packets(all) == [p] + rest && ([p] + rest)[1..] == rest;
    assert s.batch + (d1 + d2) == s.batch + d1 + d2;
    BlocksAppend(s.batch + d1, d2);
  }

  /**
   * Reassembly and batching: for every input the demuxer handles exactly the packets of the plain
   * specification, and the sink gets exactly their payload, in blocks of 3008 bytes.
   */
  lemma {:induction false} ScanRefines(s: State, d: seq<byte>)
    requires Synced(s)
    ensures Feed(Demux(), s, d) == Scanned(s, d)
    decreases |d|
  {
    hide Feed, Then, Packet, TakePacket;
    if d == [] {
      FeedNone(Demux(), s);
      assert s.pkt + d == s.pkt;
      QuietScan(s);
    } else if s.pkt == [] && d[0] != SYNC {
      assert d == d[..1] + d[1..] && d[..1] == [d[0]];
      FeedOne(Demux(), s, d[0]);
      FeedQuiet(Demux(), s, d[..1], s, d[1..]);
      ScanRefines(s, d[1..]);
      assert [] + d == d && [] + d[1..] == d[1..];
    } else {
      var t := Min(PACKET - |s.pkt|, |d|);
      assert d == d[..t] + d[t..];
      Accumulate(s, d[..t]);
      if |s.pkt| + t == PACKET {
        ScannedPacket(s, d, t);
        var r := TakePacket(s, s.pkt + d[..t]);
        TakeSucceeds(s, s.pkt + d[..t]);
        ScanRefines(r.st, d[t..]);
        FeedThen(Demux(), s, d[..t], r, d[t..]);
      } else {
        assert d[..t] == d;
        QuietScan(s.(pkt := s.pkt + d));
      }
    }
  }

  lemma TakeSucceeds(s: State, p: seq<byte>)
    requires |p| == PACKET
    ensures TakePacket(s, p).ok
  {
  }

  lemma QuietScan(s: State)
    requires Synced(s)
    ensures Packets(s.pkt) == [] && Incomplete(s.pkt) == s.pkt
    ensures Carry(s.core, []) == (s.core, [])
    ensures Blocks(s.batch + []) == [] && Remainder(s.batch + []) == s.batch
  {
    assert s.batch + [] == s.batch;
  }

  /** At all times the blocks delivered and the batch are the accepted payload, byte for byte. */
  lemma PayloadConserved(s: State, d: seq<byte>)
    requires Synced(s)
    ensures var r := Feed(Demux(), s, d);
            && Flatten(r.out) + r.st.batch == s.batch + Carry(s.core, Packets(s.pkt + d)).1
            && (forall b :: b in r.out ==> |b| == BLOCK)
  {
    hide Feed, Then;
    ScanRefines(s, d);
    BlocksCover(s.batch + Carry(s.core, Packets(s.pkt + d)).1);
  }
}
