/** The MPEG-TS demuxer of the firmware: packet and output buffers updated in place by whole network reads. */
module Ts {
  import opened Bytes
  import opened Machine
  import opened TsSpec
  import opened TsTheorems

  class TsDemuxer {
    const pkt: array<byte>
    var fill: nat
    var pids: Pids
    var pesSkip: nat // how much of a PES header is yet to come
    var lastCc: int // -1 until the segment's first audio packet
    var ccErr: nat // gaps in the continuity counter since the segment began
    const out: array<byte>
    var olen: nat
    /** The calls made to the sink so far. */
    ghost var sunk: seq<seq<byte>>

    ghost predicate Valid()
      reads this`fill, this`olen, pkt
    {
      && pkt.Length == PACKET && out.Length == BLOCK && pkt != out
      && fill < PACKET && olen < BLOCK
      && (fill > 0 ==> pkt[0] == SYNC)
    }

    ghost function CoreView(): Core
      reads this`pids, this`pesSkip, this`lastCc, this`ccErr
    {
      Core(pids, pesSkip, lastCc, ccErr)
    }

    ghost function View(): State
      reads this, pkt, out
      requires Valid()
    {
      State(CoreView(), pkt[..fill], out[..olen])
    }

    constructor ()
      ensures Valid() && View() == Fresh(Pids(-1, -1, -1)) && sunk == []
      ensures fresh(pkt) && fresh(out)
    {
      pkt := new byte[PACKET];
      out := new byte[BLOCK];
      pids, pesSkip, lastCc, ccErr := Pids(-1, -1, -1), 0, -1, 0;
      fill, olen, sunk := 0, 0, [];
    }

    /** Appends bytes to the output buffer and hands it over when it is full. */
    method Batch(b: seq<byte>)
      requires out.Length == BLOCK && olen + |b| <= BLOCK && olen < BLOCK
      modifies this`olen, this`sunk, out
      ensures olen < BLOCK
      ensures out[..olen] == Remainder(old(out[..olen]) + b)
      ensures sunk == old(sunk) + Blocks(old(out[..olen]) + b)
    {
      ghost var all := out[..olen] + b;
      Copy(out, olen, b);
      olen := olen + |b|;
      assert out[..olen] == all;
      if olen == BLOCK {
        OneBlock(all);
        olen := 0;
        sunk := sunk + [out[..]];
        assert out[..] == all && out[..olen] == [];
      } else {
        assert sunk + [] == sunk;
      }
    }

    /** ts_out: batches the payload so that the sink gets blocks of 16 packets' worth. */
    method Output(d: seq<byte>)
      requires out.Length == BLOCK && olen < BLOCK
      modifies this`olen, this`sunk, out
      ensures olen < BLOCK
      ensures out[..olen] == Remainder(old(out[..olen]) + d)
      ensures sunk == old(sunk) + Blocks(old(out[..olen]) + d)
    {
      hide Blocks, Remainder;
      var i := 0;
      ghost var start := out[..olen];
      QuietBatch(start);
      assert start + d[..0] == start && sunk + [] == sunk;
      while i < |d|
        invariant 0 <= i <= |d| && olen < BLOCK
        invariant out[..olen] == Remainder(start + d[..i])
        invariant sunk == old(sunk) + Blocks(start + d[..i])
      {
        var k := if BLOCK - olen > |d| - i then |d| - i else BLOCK - olen;
        assert start + d[..i + k] == start + d[..i] + d[i..i + k];
        BlocksAppend(start + d[..i], d[i..i + k]);
        Batch(d[i..i + k]);
        i := i + k;
      }
      assert d[..i] == d;
    }

    /** parse_pat. */
    method ParsePat(s: seq<byte>)
      modifies this`pids
      ensures pids == Pat(old(pids), s)
    {
      if |s| < 12 || s[0] != 0 {
        return;
      }
      var end := s[1] as int % 16 * 256 + s[2] as int - 1;
      if end > |s| {
        end := |s|;
      }
      var i: nat := 8;
      while i + 4 <= end
        invariant FirstProgram(s, 8, end, pids.pmt) == FirstProgram(s, i, end, pids.pmt)
        invariant pids == old(pids)
        decreases end - i
      {
        var prog := s[i] as int * 256 + s[i + 1] as int;
        if prog != 0 {
          pids := pids.(pmt := s[i + 2] as int % 32 * 256 + s[i + 3] as int);
          return;
        }
        i := i + 4;
      }
    }

    /** parse_pmt. */
    method ParsePmt(s: seq<byte>)
      modifies this`pids
      ensures pids == Pmt(old(pids), s)
    {
      if |s| < 16 || s[0] != 2 {
        return;
      }
      var end := s[1] as int % 16 * 256 + s[2] as int - 1;
      if end > |s| {
        end := |s|;
      }
      var i: nat := 12 + (s[10] as int % 16 * 256 + s[11] as int);
      while i + 5 <= end
        invariant Pmt(old(pids), s) == Streams(pids, s, i, end)
        decreases end - i
      {
        var kind, pid := s[i], s[i + 1] as int % 32 * 256 + s[i + 2] as int;
        var es := s[i + 3] as int % 16 * 256 + s[i + 4] as int;
        if kind == 0x0F && pids.audio < 0 {
          pids := pids.(audio := pid);
        } else if kind == 0x15 && pids.meta < 0 {
          pids := pids.(meta := pid);
        }
        i := i + 5 + es;
      }
    }

    /** The continuity check of ts_packet. */
    method CountPacket(cc: int)
      modifies this`lastCc, this`ccErr
      ensures CoreView() == Count(old(CoreView()), cc)
    {
      if lastCc >= 0 && cc != lastCc && cc != (lastCc + 1) % 16 {
        ccErr := ccErr + 1;
      }
      lastCc := cc;
    }

    /** The audio branch of ts_packet: returns the elementary stream bytes of the payload. */
    method AudioPayload(cc: int, unitStart: bool, payload: seq<byte>) returns (es: seq<byte>)
      modifies this`pesSkip, this`lastCc, this`ccErr
      ensures (CoreView(), es) == AudioPacket(old(CoreView()), cc, unitStart, payload)
    {
      hide Count;
      CountPacket(cc);
      es := payload;
      if unitStart {
        if |es| < 9 || es[0] != 0 || es[1] != 0 || es[2] != 1 {
          pesSkip := 0;
          return [];
        }
        pesSkip := 9 + es[8] as int;
      }
      if pesSkip > 0 {
        var n := if pesSkip < |es| then pesSkip else |es|;
        es := es[n..];
        pesSkip := pesSkip - n;
      }
    }

    /** ts_packet. */
    method HandlePacket(p: seq<byte>)
      requires |p| == PACKET && out.Length == BLOCK && olen < BLOCK
      modifies this`pids, this`pesSkip, this`lastCc, this`ccErr, this`olen, this`sunk, out
      ensures olen < BLOCK
      ensures var (core, payload) := Packet(old(CoreView()), p);
              && CoreView() == core
              && out[..olen] == Remainder(old(out[..olen]) + payload)
              && sunk == old(sunk) + Blocks(old(out[..olen]) + payload)
    {
      hide Blocks, Remainder, AudioPacket, Pat, Pmt;
      QuietBatch(out[..olen]);
      assert sunk + [] == sunk && out[..olen] + [] == out[..olen];
      if p[0] != SYNC || p[1] >= 0x80 {
        return;
      }
      var unitStart := p[1] as int / 64 % 2 == 1;
      var pid := p[1] as int % 32 * 256 + p[2] as int;
      var afc := p[3] as int / 16 % 4;
      var off := 4;
      if afc / 2 == 1 {
        off := off + 1 + p[4] as int;
      }
      if afc % 2 == 0 || off >= PACKET {
        return;
      }
      var pl := p[off..];
      if pid == 0 || pid == pids.pmt {
        if !unitStart || 1 + pl[0] as int >= |pl| {
          return;
        }
        if pid == 0 {
          ParsePat(pl[1 + pl[0] as int..]);
        } else {
          ParsePmt(pl[1 + pl[0] as int..]);
        }
        return;
      }
      if pids.meta >= 0 && pid == pids.meta {
        return;
      }
      if pid != pids.audio {
        return;
      }
      var es := AudioPayload(p[3] as int % 16, unitStart, pl);
      if |es| > 0 {
        Output(es);
      }
    }

    /** One turn of ts_feed's loop: a byte out of sync, a whole packet taken directly, or bytes of a packet. */
    method Turn(d: seq<byte>) returns (t: nat)
      requires Valid() && d != []
      modifies this, pkt, out
      ensures Valid() && 0 < t <= |d|
      ensures var r := Feed(Demux(), old(View()), d[..t]);
              r == Run(View(), r.out, true) && sunk == old(sunk) + r.out
    {
      hide Feed, Then, Packet, Blocks, Remainder;
      ghost var s := View();
      assert sunk + [] == sunk;
      if fill == 0 {
        if d[0] != SYNC {
          assert d[..1] == [d[0]];
          FeedOne(Demux(), s, d[0]);
          return 1;
        }
        if |d| >= PACKET {
          t := PACKET;
          Accumulate(s, d[..t]);
          assert pkt[..0] + d[..t] == d[..t];
          HandlePacket(d[..t]);
          assert pkt[..fill] == [];
          return;
        }
      }
      t := if PACKET - fill > |d| then |d| else PACKET - fill;
      Accumulate(s, d[..t]);
      Copy(pkt, fill, d[..t]);
      fill := fill + t;
      assert pkt[..fill] == s.pkt + d[..t];
      if fill == PACKET {
        assert pkt[..] == s.pkt + d[..t];
        fill := 0;
        HandlePacket(pkt[..]);
        assert pkt[..fill] == [];
      }
    }

    /** ts_feed: the demuxer's loop over the bytes of one network read. */
    method FeedRead(d: seq<byte>)
      requires Valid()
      modifies this, pkt, out
      ensures Valid()
      ensures var r := Feed(Demux(), old(View()), d);
              r == Run(View(), r.out, true) && sunk == old(sunk) + r.out
    {
      hide Feed, Then;
      var i: nat := 0;
      ghost var log: seq<seq<byte>> := [];
      assert d[..0] == [];
      FeedNone(Demux(), View());
      while i < |d|
        invariant i <= |d| && Valid() && sunk == old(sunk) + log
        invariant Feed(Demux(), old(View()), d[..i]) == Run(View(), log, true)
      {
        ghost var here := View();
        var t := Turn(d[i..]);
        assert d[..i + t] == d[..i] + d[i..][..t];
        FeedThen(Demux(), old(View()), d[..i], Run(here, log, true), d[i..][..t]);
        log := log + Feed(Demux(), here, d[i..][..t]).out;
        i := i + t;
      }
      assert d[..i] == d;
    }

    /** ts_segment_end: flushes the batch; only the PID table survives. */
    method SegmentEnd()
      requires Valid()
      modifies this
      ensures Valid() && View() == Fresh(old(pids))
      ensures sunk == old(sunk) + if old(olen) > 0 then [old(out[..olen])] else []
    {
      if olen > 0 {
        sunk := sunk + [out[..olen]];
      }
      olen, ccErr, lastCc, fill, pesSkip := 0, 0, -1, 0, 0;
    }

    /**
     * The reads of one media segment and its end: the sink receives the payload of the packets that
     * the plain scan finds in the whole input, with the PID table retained from before.
     */
    method PlaySegment(pieces: seq<seq<byte>>)
      requires Valid() && View() == Fresh(pids)
      modifies this, pkt, out
      ensures Valid() && View() == Fresh(pids)
      ensures var (core, es) := Carry(Fresh(old(pids)).core, Packets(Flatten(pieces)));
              && pids == core.pids
              && |old(sunk)| <= |sunk| && sunk[..|old(sunk)|] == old(sunk)
              && Flatten(sunk[|old(sunk)|..]) == es
    {
      hide Feed, Then, Carry, Packets, Flatten;
      ghost var s0, log: seq<seq<byte>> := View(), [];
      var i := 0;
      assert pieces[..0] == [];
      FlattenNone<byte>();
      FeedNone(Demux(), s0);
      while i < |pieces|
        invariant 0 <= i <= |pieces| && Valid() && sunk == old(sunk) + log
        invariant Feed(Demux(), s0, Flatten(pieces[..i])) == Run(View(), log, true)
      {
        ghost var here := View();
        FeedRead(pieces[i]);
        assert pieces[..i + 1] == pieces[..i] + [pieces[i]];
        FlattenConcat(pieces[..i], [pieces[i]]);
        FlattenOne(pieces[i]);
        FeedThen(Demux(), s0, Flatten(pieces[..i]), Run(here, log, true), pieces[i]);
        log := log + Feed(Demux(), here, pieces[i]).out;
        i := i + 1;
      }
      assert pieces[..i] == pieces;
      ghost var last := out[..olen];
      Flushed(s0, Flatten(pieces), log, last);
      SegmentEnd();
      assert sunk[|old(sunk)|..] == log + if |last| > 0 then [last] else [];
    }
  }

  lemma OneBlock(b: seq<byte>)
    requires |b| == BLOCK
    ensures Blocks(b) == [b] && Remainder(b) == []
  {
    assert b[..BLOCK] == b && b[BLOCK..] == [];
  }

  /** What the sink has received once the last, short block is flushed. */
  lemma Flushed(s: State, d: seq<byte>, log: seq<seq<byte>>, last: seq<byte>)
    requires s == Fresh(s.core.pids)
    requires Feed(Demux(), s, d).out == log && Feed(Demux(), s, d).st.batch == last
    ensures var (core, es) := Carry(s.core, Packets(d));
            && Feed(Demux(), s, d).st.core == core
            && Flatten(log + if |last| > 0 then [last] else []) == es
  {
    hide Feed, Then, Carry, Packets, Flatten, Blocks, Remainder;
    assert [] + d == d;
    PayloadConserved(s, d);
    ScanRefines(s, d);
    var es := Carry(s.core, Packets(d)).1;
    assert [] + es == es;
    var tail := if |last| > 0 then [last] else [];
    FlattenConcat(log, tail);
    FlattenOne(last);
    FlattenNone<byte>();
    assert |last| == 0 ==> last == [];
  }

  lemma QuietBatch(b: seq<byte>)
    requires |b| < BLOCK
    ensures Blocks(b) == [] && Remainder(b) == b
  {
  }
}
