/** The application's flash driver: how it splits erases into sectors and writes into pages, over a chip
    that erases the sector an address lies in and wraps programming at the end of a page. */
module ExtMemFlash {
  import opened Bytes
  import opened NorFlash

  const PAGE_SIZE := 256

  // ---------- the chip ----------

  function SectorStart(address: nat): nat {
    address / SECTOR_SIZE * SECTOR_SIZE
  }

  predicate WholeSectors(cells: seq<byte>) {
    |cells| % SECTOR_SIZE == 0
  }

  lemma SectorInside(address: nat, size: nat)
    requires size % SECTOR_SIZE == 0 && address < size
    ensures SectorStart(address) <= address < SectorStart(address) + SECTOR_SIZE <= size
  {}

  /** The sector-erase command. */
  function SectorErased(cells: seq<byte>, address: nat): (r: seq<byte>)
    requires WholeSectors(cells) && address < |cells|
    ensures |r| == |cells|
  {
    SectorInside(address, |cells|);
    Erased(cells, SectorStart(address))
  }

  /** Where byte i of a page-program command that starts at the given address goes. */
  function PageSlot(address: nat, i: nat): nat {
    address / PAGE_SIZE * PAGE_SIZE + (address % PAGE_SIZE + i) % PAGE_SIZE
  }

  // ---------- splitting ----------

  datatype Piece = Piece(start: nat, size: nat)

  function PageChunk(offset: nat, remaining: nat): (n: nat)
    requires remaining > 0
    ensures 0 < n <= remaining && offset % PAGE_SIZE + n <= PAGE_SIZE
  {
    if PAGE_SIZE - offset % PAGE_SIZE > remaining then remaining else PAGE_SIZE - offset % PAGE_SIZE
  }

  function PagePlan(offset: nat, remaining: nat): seq<Piece>
    decreases remaining
  {
    if remaining == 0 then []
    else
      var n := PageChunk(offset, remaining);
      [Piece(offset, n)] + PagePlan(offset + n, remaining - n)
  }

  function ErasePlan(cur: nat, end: nat): seq<nat>
    decreases end - cur
  {
    if cur >= end then [] else [cur] + ErasePlan(cur + SECTOR_SIZE, end)
  }

  /** The pieces follow one another without gap or overlap from lo to hi, and none crosses a page boundary. */
  ghost predicate TilesPages(plan: seq<Piece>, lo: nat, hi: nat) {
    && (plan == [] ==> lo == hi)
    && (plan != [] ==> plan[0].start == lo && plan[|plan| - 1].start + plan[|plan| - 1].size == hi)
    && (forall i :: 0 <= i < |plan| - 1 ==> plan[i].start + plan[i].size == plan[i + 1].start)
    && (forall i :: 0 <= i < |plan| ==>
          plan[i].size > 0 && plan[i].start / 256 == (plan[i].start + plan[i].size - 1) / 256)
  }

  lemma {:induction false} PagePlanTiles(offset: nat, size: nat)
    ensures TilesPages(PagePlan(offset, size), offset, offset + size)
    decreases size
  {
    if size > 0 {
      var n := PageChunk(offset, size);
      PagePlanTiles(offset + n, size - n);
      var rest := PagePlan(offset + n, size - n);
      assert PagePlan(offset, size) == [Piece(offset, n)] + rest;
    }
  }

  // ---------- erasing ----------

  function SweepErased(cells: seq<byte>, cur: nat, end: nat): (r: seq<byte>)
    requires WholeSectors(cells) && end <= |cells|
    ensures |r| == |cells|
    decreases end - cur
  {
    if cur >= end then cells else SweepErased(SectorErased(cells, cur), cur + SECTOR_SIZE, end)
  }

  /** From a sector boundary, exactly the sectors that overlap the range are erased. */
  lemma {:induction false} AlignedSweep(cells: seq<byte>, cur: nat, end: nat)
    requires WholeSectors(cells) && cur % 4096 == 0 && cur <= end <= |cells|
    ensures cur <= cur + RoundUpSector(end - cur) <= |cells|
    ensures SweepErased(cells, cur, end) == Overwrite(cells, cur, Fill(ERASED, RoundUpSector(end - cur)))
    decreases end - cur
  {
    hide Overwrite, Fill;
    if cur < end {
      var next := cur + SECTOR_SIZE;
      SectorInside(cur, |cells|);
      assert SectorStart(cur) == cur;
      if next < end {
        AlignedSweep(SectorErased(cells, cur), next, end);
        OverwriteNext(cells, cur, Fill(ERASED, SECTOR_SIZE), Fill(ERASED, RoundUpSector(end - next)));
        FillNext(ERASED, SECTOR_SIZE, RoundUpSector(end - next));
      }
    } else {
      EmptyOverwrite(cells, cur);
    }
  }

  lemma EmptyOverwrite(cells: seq<byte>, at: nat)
    requires at <= |cells|
    ensures Overwrite(cells, at, Fill(ERASED, 0)) == cells
  {}

  /** Some address the sweep visits lies in the sector of x. */
  ghost predicate SectorVisited(plan: seq<nat>, x: nat) {
    exists i :: 0 <= i < |plan| && plan[i] / 4096 == x / 4096
  }

  /** Every sector of the range is visited. */
  ghost predicate CoversRange(plan: seq<nat>, lo: nat, hi: nat) {
    forall x :: lo <= x < hi ==> SectorVisited(plan, x)
  }

  lemma {:induction false} ErasePlanSteps(cur: nat, end: nat)
    ensures var plan := ErasePlan(cur, end);
            && |plan| == (if cur < end then (end - cur + 4096 - 1) / 4096 else 0)
            && forall i :: 0 <= i < |plan| ==> plan[i] == cur + 4096 * i
    decreases end - cur
  {
    if cur < end {
      ErasePlanSteps(cur + 4096, end);
    }
  }

  /** The sweep steps from the unrounded start, so it reaches every sector of the range exactly when the range does
      not run into one sector more than its length alone would need. */
  lemma SweepCoversRange(offset: nat, size: nat)
    requires size > 0
    ensures CoversRange(ErasePlan(offset, offset + size), offset, offset + size)
       <==> offset % 4096 + (size - 1) % 4096 < 4096
  {
    var plan := ErasePlan(offset, offset + size);
    ErasePlanSteps(offset, offset + size);
    hide ErasePlan;
    if offset % 4096 + (size - 1) % 4096 < 4096 {
      forall x | offset <= x < offset + size
        ensures SectorVisited(plan, x)
      {
        var i := x / 4096 - offset / 4096;
        LastSector(offset, size, x);
        assert plan[i] == offset + 4096 * i;
      }
    } else {
      var x := offset + size - 1;
      forall i | 0 <= i < |plan|
        ensures plan[i] / 4096 != x / 4096
      {
        LastSectorMissed(offset, size, i);
      }
      assert !SectorVisited(plan, x);
    }
  }

  lemma LastSector(offset: nat, size: nat, x: nat)
    requires offset <= x < offset + size
    requires offset % 4096 + (size - 1) % 4096 < 4096
    ensures var i := x / 4096 - offset / 4096;
            && 0 <= i < (size + 4096 - 1) / 4096
            && (offset + 4096 * i) / 4096 == x / 4096
  {
    assert (offset + size - 1) / 4096 == offset / 4096 + (size - 1) / 4096;
  }

  lemma LastSectorMissed(offset: nat, size: nat, i: nat)
    requires size > 0 && offset % 4096 + (size - 1) % 4096 >= 4096
    requires i < (size + 4096 - 1) / 4096
    ensures (offset + 4096 * i) / 4096 != (offset + size - 1) / 4096
  {
    assert (offset + size - 1) / 4096 == offset / 4096 + (size - 1) / 4096 + 1;
  }

  /** The data in place, 0xFF up to the next multiple of a sector, everything else as before. */
  function Stored(cells: seq<byte>, offset: nat, data: seq<byte>, up: nat): seq<byte>
    requires |data| <= up && offset + up <= |cells|
  {
    cells[..offset] + data + Fill(ERASED, up - |data|) + cells[offset + up..]
  }

  /** Erasing from a sector boundary and then writing stores exactly the data. */
  lemma EraseThenWriteStores(cells: seq<byte>, offset: nat, data: seq<byte>)
    requires WholeSectors(cells) && offset % 4096 == 0 && offset + |data| <= |cells|
    ensures |data| <= RoundUpSector(|data|) && offset + RoundUpSector(|data|) <= |cells|
    ensures Programmed(SweepErased(cells, offset, offset + |data|), offset, data)
         == Stored(cells, offset, data, RoundUpSector(|data|))
  {
    hide *;
    RoundUpCovers(|data|);
    AlignedSweepFrom(cells, offset, |data|);
    FilledThenWritten(cells, offset, data, RoundUpSector(|data|));
  }

  lemma AlignedSweepFrom(cells: seq<byte>, offset: nat, size: nat)
    requires WholeSectors(cells) && offset % 4096 == 0 && offset + size <= |cells|
    ensures offset + RoundUpSector(size) <= |cells|
    ensures SweepErased(cells, offset, offset + size) == Overwrite(cells, offset, Fill(ERASED, RoundUpSector(size)))
  {
    hide *;
    AlignedSweep(cells, offset, offset + size);
    assert offset + size - offset == size;
  }

  lemma FilledThenWritten(cells: seq<byte>, offset: nat, data: seq<byte>, up: nat)
    requires |data| <= up && offset + up <= |cells|
    ensures Programmed(Overwrite(cells, offset, Fill(ERASED, up)), offset, data)
         == Stored(cells, offset, data, up)
  {
    hide Programmed;
    ProgramOnErased(Overwrite(cells, offset, Fill(ERASED, up)), offset, data);
  }

  // ---------- the driver ----------

  datatype Buffer = Null | Data(bytes: seq<byte>)

  class Stm32ExtMemFlash {
    const cells: array<byte>
    ghost var erases: seq<nat>       // sector-erase commands issued
    ghost var programs: seq<Piece>   // page-program commands issued

    /** The chip has whole sectors, and addresses one sector past its end still fit 32 bits. */
    ghost predicate Valid() {
      cells.Length % SECTOR_SIZE == 0 && cells.Length + SECTOR_SIZE <= TWO32
    }

    constructor (cells: array<byte>)
      requires cells.Length % SECTOR_SIZE == 0 && cells.Length + SECTOR_SIZE <= TWO32
      ensures Valid() && this.cells == cells && erases == [] && programs == []
    {
      this.cells := cells;
      erases, programs := [], [];
    }

    method EraseSectorAt(address: nat)
      requires Valid() && address < cells.Length
      modifies this`erases, cells
      ensures erases == old(erases) + [address]
      ensures cells[..] == SectorErased(old(cells[..]), address)
    {
      SectorInside(address, cells.Length);
      forall i | SectorStart(address) <= i < SectorStart(address) + SECTOR_SIZE {
        cells[i] := ERASED;
      }
      assert cells[..] == Overwrite(old(cells[..]), SectorStart(address), Fill(ERASED, SECTOR_SIZE));
      erases := erases + [address];
    }

    /** The page-program command; bytes past the end of the page wrap to its start. */
    method ProgramPage(address: nat, data: seq<byte>)
      requires Valid() && address < cells.Length && 0 < |data| <= PAGE_SIZE
      modifies this`programs, cells
      ensures programs == old(programs) + [Piece(address, |data|)]
      ensures address % PAGE_SIZE + |data| <= PAGE_SIZE ==>
                address + |data| <= cells.Length && cells[..] == Programmed(old(cells[..]), address, data)
    {
      hide And, Programmed;
      PageInside(address, cells.Length);
      ghost var before := cells[..];
      for i := 0 to |data|
        invariant programs == old(programs)
        invariant address % PAGE_SIZE + |data| <= PAGE_SIZE ==>
                    && (forall j :: 0 <= j < cells.Length && !(address <= j < address + i) ==> cells[j] == before[j])
                    && (forall j :: 0 <= j < i ==> cells[address + j] == And(before[address + j], data[j]))
      {
        SlotInside(address, i, cells.Length);
        var slot := PageSlot(address, i);
        cells[slot] := And(cells[slot], data[i]);
      }
      if address % PAGE_SIZE + |data| <= PAGE_SIZE {
        ProgrammedPointwise(before, address, data, cells[..]);
      }
      programs := programs + [Piece(address, |data|)];
    }

    /** The end is computed in 32 bits: when it wraps to an address on the chip, the call reports success and has erased
        nothing. */
    method Erase(offset: u32, size: u32) returns (ok: bool)
      requires Valid()
      modifies this`erases, cells
      ensures ok <==> Wrap32(offset + size) <= cells.Length
      ensures !ok || offset + size >= TWO32 ==> cells[..] == old(cells[..]) && erases == old(erases)
      ensures ok && offset + size < TWO32 ==>
                offset + size <= cells.Length
                && cells[..] == SweepErased(old(cells[..]), offset, offset + size)
                && erases == old(erases) + ErasePlan(offset, offset + size)
    {
      hide SectorErased;
      if Wrap32(offset + size) > cells.Length {
        return false;
      }
      var cur, end := offset, Wrap32(offset + size);
      ghost var swept, plan := SweepErased(cells[..], offset, end), erases + ErasePlan(offset, end);
      assert erases + [] == erases;
      while cur < end
        invariant swept == SweepErased(cells[..], cur, end)
        invariant plan == erases + ErasePlan(cur, end)
      {
        assert ErasePlan(cur, end) == [cur] + ErasePlan(cur + SECTOR_SIZE, end);
        EraseSectorAt(cur);
        cur := cur + SECTOR_SIZE;
      }
      assert erases + [] == erases;
      return true;
    }

    /** Excluded are only those writes whose wrapped end gets past the bounds check: they program addresses behind the
        chip. */
    method Write(offset: u32, buffer: Buffer) returns (ok: bool)
      requires Valid()
      requires buffer.Data? ==> |buffer.bytes| < TWO32
      requires buffer.Data? && offset + |buffer.bytes| >= TWO32 ==> Wrap32(offset + |buffer.bytes|) > cells.Length
      modifies this`programs, cells
      ensures ok <==> buffer.Data? && buffer.bytes != [] && offset + |buffer.bytes| <= cells.Length
      ensures !ok ==> cells[..] == old(cells[..]) && programs == old(programs)
      ensures ok ==> cells[..] == Programmed(old(cells[..]), offset, buffer.bytes)
      ensures ok ==> programs == old(programs) + PagePlan(offset, |buffer.bytes|)
    {
      if buffer.Null? || Wrap32(offset + |buffer.bytes|) > cells.Length || |buffer.bytes| == 0 {
        return false;
      }
      var data := buffer.bytes;
      WritePages(offset, data);
      return true;
    }

    /** The loop of write(): one page-program command per touched page. */
    method WritePages(offset: nat, data: seq<byte>)
      requires Valid() && offset + |data| <= cells.Length
      modifies this`programs, cells
      ensures cells[..] == Programmed(old(cells[..]), offset, data)
      ensures programs == old(programs) + PagePlan(offset, |data|)
    {
      hide Programmed;
      var curOffset, ptr, remaining: nat := offset, 0, |data|;
      ghost var before, plan := cells[..], programs + PagePlan(offset, |data|);
      NothingProgrammed(cells[..], offset);
      while remaining > 0
        invariant ptr + remaining == |data| && curOffset == offset + ptr
        invariant cells[..] == Programmed(before, offset, data[..ptr])
        invariant plan == programs + PagePlan(curOffset, remaining)
      {
        var pageOffset := curOffset % PAGE_SIZE;
        var chunk := PAGE_SIZE - pageOffset;
        if chunk > remaining {
          chunk := remaining;
        }
        ProgrammedNext(before, offset, data[..ptr], data[ptr..ptr + chunk]);
        assert data[..ptr] + data[ptr..ptr + chunk] == data[..ptr + chunk];
        ProgramPage(curOffset, data[ptr..ptr + chunk]);
        curOffset := curOffset + chunk;
        ptr := ptr + chunk;
        remaining := remaining - chunk;
      }
      assert data[..ptr] == data;
    }
  }

  lemma PageInside(address: nat, size: nat)
    requires size % SECTOR_SIZE == 0 && address < size
    ensures address / PAGE_SIZE * PAGE_SIZE + PAGE_SIZE <= size
  {
    var pages := 16 * (size / SECTOR_SIZE);
    assert size == PAGE_SIZE * pages;
    assert address / PAGE_SIZE < pages;
  }

  /** A page program goes on at the start of its 256-byte page when it reaches the end. */
  lemma SlotInside(address: nat, i: nat, size: nat)
    requires address / 256 * 256 + 256 <= size
    ensures PageSlot(address, i) < size
    ensures i < 256 ==> PageSlot(address, i) == if address % 256 + i < 256 then address + i else address + i - 256
  {}

  lemma ProgrammedPointwise(before: seq<byte>, at: nat, data: seq<byte>, after: seq<byte>)
    requires at + |data| <= |before| == |after|
    requires forall j :: 0 <= j < |before| && !(at <= j < at + |data|) ==> after[j] == before[j]
    requires forall j :: 0 <= j < |data| ==> after[at + j] == And(before[at + j], data[j])
    ensures after == Programmed(before, at, data)
  {
    hide And;
    forall k | 0 <= k < |after|
      ensures after[k] == Programmed(before, at, data)[k]
    {
      if at <= k < at + |data| {
        assert after[at + (k - at)] == And(before[at + (k - at)], data[k - at]);
      }
    }
  }

  lemma NothingProgrammed(cells: seq<byte>, at: nat)
    requires at <= |cells|
    ensures Programmed(cells, at, []) == cells
  {}

  lemma ProgrammedNext(cells: seq<byte>, at: nat, a: seq<byte>, b: seq<byte>)
    requires at + |a| + |b| <= |cells|
    ensures Programmed(Programmed(cells, at, a), at + |a|, b) == Programmed(cells, at, a + b)
  {
    hide And;
  }
}
