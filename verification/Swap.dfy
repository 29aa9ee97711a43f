/** The swap area: a slot bitmap and the sectors behind it (swap.c). */
module Swap {
  import opened Machine
  import opened PagingSpec

  const BLOCK_SECTOR_SIZE: nat := 512
  const SECTORS_PER_PAGE: nat := PGSIZE / BLOCK_SECTOR_SIZE

  type Sector = s: seq<byte> | |s| == BLOCK_SECTOR_SIZE witness Zeros(BLOCK_SECTOR_SIZE)

  /** The bytes of `n` consecutive sectors. */
  function Gather(sectors: seq<Sector>, from: nat, n: nat): (bytes: seq<byte>)
    requires from + n <= |sectors|
    ensures |bytes| == n * BLOCK_SECTOR_SIZE
  {
    if n == 0 then [] else Gather(sectors, from, n - 1) + sectors[from + n - 1]
  }

  function Slot(sectors: seq<Sector>, k: nat): Page
    requires (k + 1) * SECTORS_PER_PAGE <= |sectors|
  {
    Gather(sectors, k * SECTORS_PER_PAGE, SECTORS_PER_PAGE)
  }

  function Slots(sectors: seq<Sector>, n: nat): (pages: seq<Page>)
    requires n * SECTORS_PER_PAGE == |sectors|
  {
    seq(n, k requires 0 <= k < n => Slot(sectors, k))
  }

  lemma {:induction false} GatherSame(a: seq<Sector>, b: seq<Sector>, from: nat, n: nat)
    requires from + n <= |a| && |a| == |b|
    requires forall i :: from <= i < from + n ==> a[i] == b[i]
    ensures Gather(a, from, n) == Gather(b, from, n)
  {
    if n > 0 {
      GatherSame(a, b, from, n - 1);
    }
  }

  /** The part of a page that goes to its `j`-th sector. */
  function Piece(page: Page, j: nat): Sector
    requires j < SECTORS_PER_PAGE
  {
    page[j * BLOCK_SECTOR_SIZE..(j + 1) * BLOCK_SECTOR_SIZE]
  }

  /** Sectors cut from a page put back together are the page. */
  lemma {:induction false} GatherSplit(sectors: seq<Sector>, from: nat, n: nat, page: Page)
    requires from + n <= |sectors| && n <= SECTORS_PER_PAGE
    requires forall i :: 0 <= i < n ==> sectors[from + i] == Piece(page, i)
    ensures Gather(sectors, from, n) == page[..n * BLOCK_SECTOR_SIZE]
  {
    if n > 0 {
      GatherSplit(sectors, from, n - 1, page);
      assert sectors[from + (n - 1)] == Piece(page, n - 1);
    }
  }

  /** Rewriting the sectors of one slot changes that page and no other. */
  lemma PageStored(before: seq<Sector>, after: seq<Sector>, n: nat, index: nat, page: Page)
    requires |before| == |after| == n * SECTORS_PER_PAGE && index < n
    requires forall j :: 0 <= j < SECTORS_PER_PAGE ==>
      after[index * SECTORS_PER_PAGE + j] == Piece(page, j)
    requires forall j :: 0 <= j < |after| && !(index * SECTORS_PER_PAGE <= j < (index + 1) * SECTORS_PER_PAGE) ==>
      after[j] == before[j]
    ensures Slots(after, n) == Slots(before, n)[index := page]
  {
    GatherSplit(after, index * SECTORS_PER_PAGE, SECTORS_PER_PAGE, page);
    assert Slot(after, index) == page;
    forall k | 0 <= k < n && k != index ensures Slot(after, k) == Slot(before, k) {
      GatherSame(after, before, k * SECTORS_PER_PAGE, SECTORS_PER_PAGE);
    }
  }

  lemma SlotFits(index: nat, n: nat)
    requires index < n
    ensures index * SECTORS_PER_PAGE + SECTORS_PER_PAGE <= n * SECTORS_PER_PAGE
    ensures (index + 1) * SECTORS_PER_PAGE == index * SECTORS_PER_PAGE + SECTORS_PER_PAGE
  {
    assert (index + 1) * SECTORS_PER_PAGE <= n * SECTORS_PER_PAGE;
  }

  class SwapArea {
    const swapMap: array<bool>
    const sectors: array<Sector>

    ghost predicate Sound() {
      swapMap.Length * SECTORS_PER_PAGE == sectors.Length
    }

    ghost function Used(): seq<bool>
      reads swapMap
    {
      swapMap[..]
    }

    ghost function Pages(): seq<Page>
      requires Sound()
      reads sectors
    {
      Slots(sectors[..], swapMap.Length)
    }

    /** `start_swap`: every slot starts free. */
    constructor (slots: nat)
      ensures Sound() && fresh(swapMap) && fresh(sectors)
      ensures |Used()| == slots && forall k :: 0 <= k < slots ==> !Used()[k]
    {
      swapMap := new bool[slots](_ => false);
      sectors := new Sector[slots * SECTORS_PER_PAGE](_ => Zeros(BLOCK_SECTOR_SIZE));
    }

    /** `swap_in`: `panicked` if the slot is free, else its page, and the slot becomes free. */
    method SwapIn(index: nat) returns (page: seq<byte>, panicked: bool)
      requires Sound() && index < swapMap.Length
      modifies swapMap
      ensures panicked == !old(Used())[index]
      ensures !panicked ==> page == Pages()[index] && Used() == old(Used())[index := false]
      ensures panicked ==> Used() == old(Used())
    {
      page := [];
      if !swapMap[index] {
        return page, true;
      }
      swapMap[index] := false;
      SlotFits(index, swapMap.Length);
      page := ReadSectors(index * SECTORS_PER_PAGE);
      panicked := false;
    }

    /** The `block_read` loop: the sectors from `from` on, one after the other. */
    method ReadSectors(from: nat) returns (page: seq<byte>)
      requires from + SECTORS_PER_PAGE <= sectors.Length
      ensures page == Gather(sectors[..], from, SECTORS_PER_PAGE)
    {
      page := [];
      var i := 0;
      while i < SECTORS_PER_PAGE
        invariant 0 <= i <= SECTORS_PER_PAGE
        invariant page == Gather(sectors[..], from, i)
      {
        page := page + sectors[from + i];
        i := i + 1;
      }
    }

    /** `bitmap_scan_and_flip` of the swap map. */
    method ScanAndFlip() returns (index: nat)
      modifies swapMap
      ensures index == FreeSlot(old(Used()))
      ensures Used() == if index < swapMap.Length then old(Used())[index := true] else old(Used())
    {
      index := 0;
      while index < swapMap.Length && swapMap[index]
        invariant 0 <= index <= swapMap.Length
        invariant FreeSlot(Used()) == index + FreeSlot(Used()[index..])
      {
        assert swapMap[..][index..][1..] == swapMap[..][index + 1..];
        index := index + 1;
      }
      if index < swapMap.Length {
        swapMap[index] := true;
      }
    }

    /** The `block_write` loop: a page goes to the sectors from `from` on. */
    method StoreSectors(from: nat, page: Page)
      requires from + SECTORS_PER_PAGE <= sectors.Length
      modifies sectors
      ensures forall j :: 0 <= j < SECTORS_PER_PAGE ==> sectors[from + j] == Piece(page, j)
      ensures forall j :: 0 <= j < sectors.Length && !(from <= j < from + SECTORS_PER_PAGE) ==> sectors[j] == old(sectors[j])
    {
      hide Piece;
      for i := 0 to SECTORS_PER_PAGE
        invariant forall j :: 0 <= j < i ==> sectors[from + j] == Piece(page, j)
        invariant forall j :: 0 <= j < sectors.Length && !(from <= j < from + i) ==> sectors[j] == old(sectors[j])
      {
        sectors[from + i] := Piece(page, i);
      }
    }

    /** A page goes to its slot. */
    method WriteSectors(index: nat, page: Page)
      requires Sound() && index < swapMap.Length
      modifies sectors
      ensures Pages() == old(Pages())[index := page]
    {
      hide Piece, Slots, Slot, Gather;
      ghost var before := sectors[..];
      SlotFits(index, swapMap.Length);
      StoreSectors(index * SECTORS_PER_PAGE, page);
      PageStored(before, sectors[..], swapMap.Length, index, page);
    }

    /** `swap_out`: the first free slot takes the page; `panicked` if there is none. */
    method SwapOut(page: Page) returns (index: nat, panicked: bool)
      requires Sound()
      modifies swapMap, sectors
      ensures index == FreeSlot(old(Used())) && panicked == (index == |old(Used())|)
      ensures !panicked ==> Used() == old(Used())[index := true] && Pages() == old(Pages())[index := page]
      ensures panicked ==> Used() == old(Used()) && Pages() == old(Pages())
    {
      index := ScanAndFlip();
      if index == swapMap.Length {
        return index, true;
      }
      WriteSectors(index, page);
      panicked := false;
    }
  }
}
