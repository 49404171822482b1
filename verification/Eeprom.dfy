/** The station store of main/eeprom.c on NOR flash: erasing sets every bit, writing can only clear bits. */
module Eeprom {
  import opened Bytes

  type octet = bv8

  const SECTOR := 4096
  const RECORD := 256
  const NB_STATIONS := 255
  /** The stations partition has 64 KiB in every partition table. */
  const STATIONS_SIZE := 16 * SECTOR

  lemma SpliceTwice(f: seq<octet>, at: nat, x: seq<octet>, y: seq<octet>)
    requires at + |x| + |y| <= |f|
    ensures Splice(Splice(f, at, x), at + |x|, y) == Splice(f, at, x + y)
  {
  }

  lemma SpliceOn(f: seq<octet>, at: nat, data: seq<octet>, n: nat, more: nat)
    requires n + more <= |data| && at + n + more <= |f|
    ensures Splice(Splice(f, at, data[..n]), at + n, data[n..n + more]) == Splice(f, at, data[..n + more])
  {
    SpliceTwice(f, at, data[..n], data[n..n + more]);
    assert data[..n] + data[n..n + more] == data[..n + more];
  }

  lemma SpliceNothing(f: seq<octet>, at: nat)
    requires at <= |f|
    ensures Splice(f, at, []) == f
  {
  }

  lemma SpliceAt(f: seq<octet>, at: nat, data: seq<octet>, k: nat)
    requires at + |data| <= |f| && k < |f|
    ensures Splice(f, at, data)[k] == if at <= k < at + |data| then data[k - at] else f[k]
  {
  }

  /** What a cell holds after `data` is programmed over `was`. */
  function Programmed(was: octet, data: octet): octet {
    was & data
  }

  lemma ProgramErased(data: octet)
    ensures Programmed(0xFF, data) == data
  {
  }

  lemma ProgramZero(was: octet)
    ensures Programmed(was, 0) == 0
  {
  }

  /** A flash partition behind the esp_partition calls. */
  class Partition {
    const cells: array<octet>

    constructor (size: nat)
      ensures fresh(cells) && cells.Length == size
    {
      cells := new octet[size];
    }

    ghost predicate Sectored() {
      cells.Length % SECTOR == 0 && cells.Length <= 0x100_0000
    }

    method EraseRange(offset: nat, len: nat)
      requires offset % SECTOR == 0 && len % SECTOR == 0 && offset + len <= cells.Length
      modifies cells
      ensures forall k :: 0 <= k < cells.Length ==>
                cells[k] == if offset <= k < offset + len then 0xFF else old(cells[k])
    {
      forall k | offset <= k < offset + len {
        cells[k] := 0xFF;
      }
    }

    method Write(offset: nat, data: seq<octet>)
      requires offset + |data| <= cells.Length
      modifies cells
      ensures forall k :: 0 <= k < cells.Length ==>
                cells[k] ==
                if offset <= k < offset + |data| then Programmed(old(cells[k]), data[k - offset]) else old(cells[k])
    {
      forall k | offset <= k < offset + |data| {
        cells[k] := Programmed(cells[k], data[k - offset]);
      }
    }

    /** One turn of the loop: read the sector, erase it, overlay `data` and write it back. */
    method RewriteSector(eebuf: array<octet>, address: nat, data: seq<octet>)
      requires eebuf.Length == SECTOR && eebuf != cells && Sectored()
      requires address % SECTOR + |data| <= SECTOR && address < cells.Length
      modifies cells, eebuf
      ensures address + |data| <= cells.Length
      ensures cells[..] == Splice(old(cells[..]), address, data)
    {
      SectorInside(address, cells.Length);
      var startaddr := address % SECTOR;
      var sector := address - startaddr;
      ghost var was := cells[..];
      Copy(eebuf, 0, cells[sector..sector + SECTOR]);
      EraseRange(sector, SECTOR);
      ghost var erased := cells[..];
      Overlay(eebuf, startaddr, data);
      WriteErased(sector, eebuf[..]);
      hide Splice;
      forall k | 0 <= k < |was|
        ensures cells[k] == Splice(was, address, data)[k]
      {
        SpliceAt(was, address, data, k);
      }
      assert cells[..] == Splice(was, address, data);
    }

    /** The loop that puts `data` into the sector buffer. */
    method Overlay(eebuf: array<octet>, startaddr: nat, data: seq<octet>)
      requires startaddr + |data| <= eebuf.Length
      modifies eebuf
      ensures
        forall k :: 0 <= k < eebuf.Length ==>
          eebuf[k] == if startaddr <= k < startaddr + |data| then data[k - startaddr] else old(eebuf[k])
    {
      var i := 0;
      while i < |data|
        invariant 0 <= i <= |data|
        invariant
          forall k :: 0 <= k < eebuf.Length ==>
            eebuf[k] == if startaddr <= k < startaddr + i then data[k - startaddr] else old(eebuf[k])
      {
        eebuf[i + startaddr] := data[i];
        i := i + 1;
      }
    }

    /** Writing to erased cells stores the data as it is. */
    method WriteErased(offset: nat, data: seq<octet>)
      requires offset + |data| <= cells.Length && forall k :: offset <= k < offset + |data| ==> cells[k] == 0xFF
      modifies cells
      ensures
        forall k :: 0 <= k < cells.Length ==>
          cells[k] == if offset <= k < offset + |data| then data[k - offset] else old(cells[k])
    {
      hide Programmed;
      forall b: octet
        ensures Programmed(0xFF, b) == b
      {
        ProgramErased(b);
      }
      Write(offset, data);
    }

    /** The next sector's share of `buffer`; `last` says that nothing is left behind it. */
    method RewriteNext(eebuf: array<octet>, ghost was: seq<octet>, address: nat, buffer: seq<octet>, size: int, done: nat)
      returns (i: nat, last: bool)
      requires eebuf.Length == SECTOR && eebuf != cells && Sectored() && |was| == cells.Length
      requires size <= |buffer| && address + size <= |was|
      requires done <= |buffer| && (done == 0 || done < size) && address + done < |was|
      requires cells[..] == Splice(was, address, buffer[..done])
      modifies cells, eebuf
      ensures last ==> done + i == if size > 0 then size else 0
      ensures !last ==> 0 < i && done + i < size
      ensures cells[..] == Splice(was, address, buffer[..done + i])
    {
      hide Splice, Sectored;
      var left := size - done;
      var startaddr := (address + done) % SECTOR;
      var maxsize := SECTOR - startaddr;
      i := if left <= 0 then 0 else if left < maxsize then left else maxsize;
      ShareFits(address + done, left, i);
      SpliceOn(was, address, buffer, done, i);
      RewriteSector(eebuf, address + done, buffer[done..done + i]);
      last := maxsize >= left;
    }

    /** The loop over the sectors. */
    method RewriteAll(eebuf: array<octet>, address: nat, buffer: seq<octet>, size: int)
      requires eebuf.Length == SECTOR && eebuf != cells && Sectored()
      requires address < cells.Length && size <= |buffer| && address + size <= cells.Length
      modifies cells, eebuf
      ensures cells[..] == Splice(old(cells[..]), address, if size > 0 then buffer[..size] else [])
    {
      hide *;
      var done: nat := 0;
      ghost var was, all := cells[..], if size > 0 then buffer[..size] else [];
      SpliceNothing(was, address);
      assert buffer[..0] == [];
      while true
        invariant done <= |buffer| && (done == 0 || done < size)
        invariant cells[..] == Splice(was, address, buffer[..done])
        decreases size - done
      {
        var i, last := RewriteNext(eebuf, was, address, buffer, size, done);
        done := done + i;
        if last {
          assert buffer[..done] == all;
          break;
        }
      }
    }

    /** eeSetData: `granted` says whether its one allocation succeeds. */
    method SetData(address: nat, buffer: seq<octet>, size: int, granted: bool) returns (ok: bool)
      requires Sectored() && address < cells.Length && size <= |buffer| && address + size <= cells.Length
      modifies cells
      ensures ok == granted
      ensures !ok ==> cells[..] == old(cells[..])
      ensures ok ==> cells[..] == Splice(old(cells[..]), address, if size > 0 then buffer[..size] else [])
    {
      if granted {
        hide Splice;
        var eebuf := new octet[SECTOR];
        RewriteAll(eebuf, address, buffer, size);
      }
      ok := granted;
    }
  }

  /** Station `p` occupies one record; the whole table is 255 records. */
  function Record(f: seq<octet>, p: nat): (r: seq<octet>)
    requires (p + 1) * RECORD <= |f|
    ensures |r| == RECORD
  {
    f[p * RECORD..(p + 1) * RECORD]
  }

  /** How many of `number` stations fit from `position` on: none beyond station 254. */
  function Fitting(position: nat, number: nat): (n: nat)
    requires position <= NB_STATIONS
  {
    if position + number <= NB_STATIONS then number else NB_STATIONS - position
  }

  /** Whether one of the `tries` attempts from number `from` on is granted memory. */
  predicate AnyGrant(kmalloc: nat -> bool, from: nat, tries: nat)
    decreases tries
  {
    tries > 0 && (kmalloc(from) || AnyGrant(kmalloc, from + 1, tries - 1))
  }

  class Stations {
    const flash: Partition

    ghost predicate Shape() {
      flash.cells.Length == STATIONS_SIZE
    }

    constructor (flash: Partition)
      ensures this.flash == flash
    {
      this.flash := flash;
    }

    method SaveStation(station: seq<octet>, position: nat, kmalloc: nat -> bool)
      requires Shape() && |station| == RECORD
      modifies flash.cells
      ensures flash.cells[..] ==
              if position < NB_STATIONS && AnyGrant(kmalloc, 0, 10)
              then Splice(old(flash.cells[..]), position * RECORD, station)
              else old(flash.cells[..])
    {
      if position > NB_STATIONS - 1 {
        return;
      }
      var i := 0;
      assert station[..RECORD] == station;
      var ok := flash.SetData(position * RECORD, station, RECORD, kmalloc(0));
      while !ok
        invariant 0 <= i < 10 && ok == kmalloc(i)
        invariant AnyGrant(kmalloc, 0, 10) == AnyGrant(kmalloc, i, 10 - i)
        invariant flash.cells[..] ==
                  if ok then Splice(old(flash.cells[..]), position * RECORD, station) else old(flash.cells[..])
        decreases 10 - i, !ok
      {
        i := i + 1;
        if i == 10 {
          return;
        }
        ok := flash.SetData(position * RECORD, station, RECORD, kmalloc(i));
      }
    }

    /** `number` is a byte; beyond position 255 the trimming loop of the source does not end. */
    method SaveMultiStation(station: seq<octet>, position: nat, number: nat, kmalloc: nat -> bool)
      requires Shape() && position <= NB_STATIONS && number < 256 && |station| >= number * RECORD
      modifies flash.cells
      ensures flash.cells[..] ==
              if AnyGrant(kmalloc, 0, 10)
              then Splice(old(flash.cells[..]), position * RECORD, station[..Fitting(position, number) * RECORD])
              else old(flash.cells[..])
    {
      var number := number;
      ghost var fit := Fitting(position, number);
      while position + number - 1 > NB_STATIONS - 1
        invariant fit <= number && fit == Fitting(position, number)
      {
        number := number - 1;
      }
      if number <= 0 {
        SpliceNothing(flash.cells[..], position * RECORD);
        assert station[..0] == [];
        return;
      }
      var i := 0;
      var ok := flash.SetData(position * RECORD, station, number * RECORD, kmalloc(0));
      while !ok
        invariant 0 <= i < 10 && ok == kmalloc(i)
        invariant AnyGrant(kmalloc, 0, 10) == AnyGrant(kmalloc, i, 10 - i)
        invariant flash.cells[..] ==
                  if ok
                  then Splice(old(flash.cells[..]), position * RECORD, station[..number * RECORD])
                  else old(flash.cells[..])
        decreases 10 - i, !ok
      {
        i := i + 1;
        if i == 10 {
          return;
        }
        ok := flash.SetData(position * RECORD, station, number * RECORD, kmalloc(i));
      }
    }

    /** Absent for position 255; the read itself needs one of three allocations. */
    method GetStation(position: nat, kmalloc: nat -> bool) returns (station: Option<seq<octet>>)
      requires Shape() && position < 256 && AnyGrant(kmalloc, 0, 3)
      ensures station == if position < NB_STATIONS then Some(Record(flash.cells[..], position)) else None
    {
      if position > NB_STATIONS - 1 {
        return None;
      }
      var i := 0;
      var buffer := kmalloc(0);
      while !buffer
        invariant 0 <= i < 3 && buffer == kmalloc(i)
        invariant AnyGrant(kmalloc, i, 3 - i)
        decreases 3 - i, !buffer
      {
        i := i + 1;
        if i > 2 {
          break;
        }
        buffer := kmalloc(i);
      }
      station := Some(flash.cells[position * RECORD..position * RECORD + RECORD]);
    }

    /** Clears every cell by programming zeros, without an erase. */
    method EraseStations(kmalloc: nat -> bool)
      requires Shape()
      modifies flash.cells
      ensures AnyGrant(kmalloc, 0, 11) ==> forall k :: 0 <= k < STATIONS_SIZE ==> flash.cells[k] == 0
      ensures !AnyGrant(kmalloc, 0, 11) ==> flash.cells[..] == old(flash.cells[..])
    {
      var i := 0;
      var buffer := kmalloc(0);
      while !buffer
        invariant 0 <= i < 11 && buffer == kmalloc(i)
        invariant AnyGrant(kmalloc, 0, 11) == AnyGrant(kmalloc, i, 11 - i)
        invariant flash.cells[..] == old(flash.cells[..])
        decreases 11 - i, !buffer
      {
        i := i + 1;
        if i > 10 {
          break;
        }
        buffer := kmalloc(i);
      }
      if buffer {
        var zeros := seq(SECTOR, _ => 0 as octet);
        i := 0;
        while i < 16
          invariant 0 <= i <= 16
          invariant forall k :: 0 <= k < i * SECTOR ==> flash.cells[k] == 0
        {
          ghost var was := flash.cells[..];
          hide Programmed;
          flash.Write(SECTOR * i, zeros);
          forall k | SECTOR * i <= k < SECTOR * i + SECTOR
            ensures flash.cells[k] == 0
          {
            ProgramZero(was[k]);
          }
          i := i + 1;
        }
      }
    }
  }

  /** The share of a sector is at most what is left of it. */
  lemma ShareFits(at: nat, left: int, i: int)
    requires
      var room := SECTOR - at % SECTOR;
      i == if left <= 0 then 0 else if left < room then left else room
    ensures i >= 0 && at % SECTOR + i <= SECTOR && (i <= left || i == 0)
    ensures SECTOR - at % SECTOR >= left ==> i == left || (left < 0 && i == 0)
    ensures SECTOR - at % SECTOR < left ==> 0 < i < left
  {
  }

  lemma SectorInside(address: nat, length: nat)
    requires length % SECTOR == 0 && address < length
    ensures
      var sector := address - address % SECTOR;
      sector % SECTOR == 0 && sector + SECTOR <= length
  {
    assert address == address / SECTOR * SECTOR + address % SECTOR;
    assert length == length / SECTOR * SECTOR;
  }

  /** What a save does to every station: the new records in place, all others untouched. */
  lemma SavedRecords(f: seq<octet>, position: nat, data: seq<octet>, n: nat, q: nat)
    requires |data| == n * RECORD && (position + n) * RECORD <= |f| && (q + 1) * RECORD <= |f|
    ensures
      Record(Splice(f, position * RECORD, data), q) ==
      if position <= q < position + n then Record(data, q - position) else Record(f, q)
  {
    var saved := Splice(f, position * RECORD, data);
    if q < position {
      assert forall k :: q * RECORD <= k < (q + 1) * RECORD ==> saved[k] == f[k];
    } else if q < position + n {
      assert forall k :: q * RECORD <= k < (q + 1) * RECORD ==> saved[k] == data[k - position * RECORD];
    } else {
      assert forall k :: q * RECORD <= k < (q + 1) * RECORD ==> saved[k] == f[k];
    }
  }

  /** Saving stations and reading any one back, whatever the flash held before and whatever memory either call gets. */
  method SaveThenGet(stations: Stations, records: seq<octet>, position: nat, number: nat, q: nat,
                     save: nat -> bool, read: nat -> bool)
    returns (station: Option<seq<octet>>)
    requires stations.Shape() && position <= NB_STATIONS && number < 256 && |records| == number * RECORD && q < 256
    requires AnyGrant(read, 0, 3)
    modifies stations.flash.cells
    ensures station ==
            if q >= NB_STATIONS then None
            else if position <= q < position + number && AnyGrant(save, 0, 10) then Some(Record(records, q - position))
            else Some(old(Record(stations.flash.cells[..], q)))
  {
    hide Splice, Record, AnyGrant;
    ghost var n, was := Fitting(position, number), stations.flash.cells[..];
    stations.SaveMultiStation(records, position, number, save);
    station := stations.GetStation(q, read);
    if q < NB_STATIONS {
      SavedRecords(was, position, records[..n * RECORD], n, q);
      if position <= q < position + n {
        RecordOfPrefix(records, n * RECORD, q - position);
      }
    }
  }

  lemma RecordOfPrefix(records: seq<octet>, n: nat, q: nat)
    requires (q + 1) * RECORD <= n <= |records|
    ensures Record(records[..n], q) == Record(records, q)
  {
  }

  /** The guard of the trimming loop, over the byte `number`. */
  predicate TooFar(position: nat, number: nat) {
    position + number - 1 > NB_STATIONS - 1
  }

  /** `number` after `k` decrements of a byte. */
  function Decremented(number: nat, k: nat): nat
    decreases k
  {
    if k == 0 then number
    else if number == 0 then Decremented(255, k - 1)
    else Decremented(number - 1, k - 1)
  }

  /** The trimming loop ends exactly for positions up to 255; from 256 on its guard never fails. */
  lemma TrimmingEnds(position: nat, number: nat, k: nat)
    requires number < 256
    ensures position <= NB_STATIONS ==> !TooFar(position, Decremented(number, number - Fitting(position, number)))
    ensures position > NB_STATIONS ==> TooFar(position, Decremented(number, k))
  {
    if position <= NB_STATIONS {
      CountedDown(number, number - Fitting(position, number));
    }
  }

  lemma {:induction false} CountedDown(number: nat, k: nat)
    requires k <= number
    ensures Decremented(number, k) == number - k
  {
    if k > 0 {
      CountedDown(number - 1, k - 1);
    }
  }
}
