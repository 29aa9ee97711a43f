/** Demand paging performed in place: frame.c, page.c, the page-fault handler and the checks system
    calls make on user buffers. Every method is tied to the specification of its operation. */
module Vm {
  import opened Machine
  import opened PagingSpec
  import opened PagingProofs
  import opened EvictionScan
  import EvictionPolicy
  import opened Swap

  /** What `palloc_get_page`, after making room, came to. */
  datatype Alloc = Frame(f: nat) | AllocPanic | AllocHang

  /** How a call ends: it returns its C result, panics the kernel, or scans for ever. */
  datatype Result = Returned(ok: bool) | Panic | Hang

  ghost predicate Ends(r: Result, now: State, out: Outcome) {
    match out
    case Done(st, ok) => r == Returned(ok) && now == st
    case Panicked => r == Panic
    case Stuck => r == Hang
  }

  /** The bytes below the stack pointer that an instruction may push to. */
  const STACK_H: word := 32

  /** What `page_fault` (exception.c:132) decides; `Done(_, false)` means the process is killed. */
  function PageFaultSpec(st: State, tid: nat, addr: word, esp: word, notPresent: bool, f: nat, installs: bool): Outcome
    requires Valid(st)
    requires PageId(tid, PageStart(addr)) in st.spt ==> GrantsFor(st, PageId(tid, PageStart(addr)), f)
    requires PageId(tid, PageStart(addr)) !in st.spt ==> Grants(st, f)
  {
    var id := PageId(tid, PageStart(addr));
    if !(notPresent && addr > USER_VADDR_BOTTOM && IsUser(addr)) then Done(st, false)
    else if id in st.spt then
      var out := LoadPage(st, id, f, installs);
      if out.Done? && id in out.st.spt then Done(SetPinned(out.st, id, false), out.ok) else out
    else if addr >= Sub32(esp, STACK_H) then GrowStack(st, id, f, installs)
    else Done(st, false)
  }

  /** A frame that making room would grant. */
  ghost function SomeGrant(st: State): (f: nat)
    requires Valid(st)
    ensures Grants(st, f)
  {
    if Room(st).Done? then
      RoomMade(st);
      var f :| f in Room(st).st.free; f
    else 0
  }

  /** Frame `f` taken for a page: no longer free, and entered in the frame table. */
  function Taken(st: State, id: PageId, f: nat, zero: bool): State {
    st.(free := st.free - {f}, table := st.table + [Fte(f, id)], ram := if zero then st.ram[f := Zeros(PGSIZE)] else st.ram)
  }

  class Pager {
    var spt: map<PageId, Spte>
    var pd: map<PageId, Pte>
    var table: seq<Fte>
    var free: set<nat>
    var ram: map<nat, Page>
    var files: map<nat, seq<byte>>
    const swap: SwapArea

    ghost predicate Sound() {
      swap.Sound()
    }

    ghost function Now(): State
      requires Sound()
      reads this, swap.swapMap, swap.sectors
    {
      State(spt, pd, table, free, ram, swap.Used(), swap.Pages(), files)
    }

    /** A machine with the given frames and swap slots, no process and the given files. */
    constructor (frames: map<nat, Page>, slots: nat, files: map<nat, seq<byte>>)
      ensures Sound() && fresh(swap.swapMap) && fresh(swap.sectors)
      ensures Inv(Now()) && Now().spt == map[] && Now().files == files && Now().ram == frames
    {
      spt, pd, table := map[], map[], [];
      ram, free := frames, frames.Keys;
      this.files := files;
      swap := new SwapArea(slots);
    }

    /** `pagedir_set_accessed` to false. */
    method ClearAccessed(id: PageId)
      requires Sound() && id in pd
      modifies this`pd
      ensures pd == old(pd)[id := old(pd)[id].(accessed := false)] && pd.Keys == old(pd).Keys
      ensures Now() == old(Now()).(pd := pd)
    {
      pd := pd[id := pd[id].(accessed := false)];
    }

    /** The scan of `evict_frame` (frame.c:109-160): a clock over the frame table. */
    method Scan() returns (e: nat)
      requires Sound() && Valid(Now()) && Evictable(Now())
      modifies this`pd
      ensures Now() == old(Scanned(Now())) && e == old(Victim(Now()))
    {
      ghost var st, trips := Now(), 0;
      ScanStarts(st);
      hide Valid, Trips, TripsNeeded, Scanned, Victim, Evictable, Next;
      e := 0;
      while true
        invariant spt == st.spt && table == st.table && Now() == st.(pd := pd)
        invariant pd.Keys == st.pd.Keys && e < |table|
        invariant trips < TripsNeeded(st) && Trips(st, trips) == At(pd, e)
        decreases TripsNeeded(st) - trips
      {
        TripTaken(st, trips, pd, e);
        var fte := table[e];
        if !spt[fte.id].pinned {
          if pd[fte.id].accessed {
            ClearAccessed(fte.id);
          } else {
            return;
          }
        }
        trips := trips + 1;
        e := if e + 1 == |table| then 0 else e + 1;
      }
    }

    /** `evict_frame` up to its final `palloc_get_page`. It panics exactly if its victim is a swap page or a written
        page of an executable, and no slot is free. */
    method EvictFrame() returns (panicked: bool)
      requires Sound() && Valid(Now()) && Evictable(Now())
      modifies this, swap.swapMap, swap.sectors
      ensures panicked == old(SwapFullFor(Now(), table[Victim(Now())].id))
      ensures !panicked ==> Now() == old(Evicted(Now()))
      ensures var v := old(Victim(Now())); var id := old(table)[v].id;
        && v < |old(table)| && id in old(spt) && id in old(pd)
        && (panicked <==> (old(spt)[id].kind == SWAP || (old(spt)[id].kind == FILE && old(pd)[id].dirty))
                          && forall k :: 0 <= k < |old(swap.Used())| ==> old(swap.Used())[k])
    {
      EvictionPolicy.EvictionTakes(Now());
      ScannedValid(Now());
      TableEntryMapped(Now(), Victim(Now()));
      hide Valid, Swept, Search;
      var e := Scan();
      var fte := table[e];
      panicked := WriteBack(fte.id);
      if !panicked {
        ReleaseEntry(e);
      }
    }

    /** The victim's bytes go to its file or to swap if they must (frame.c:127-144). */
    method WriteBack(id: PageId) returns (panicked: bool)
      requires Sound() && Valid(Now()) && id in pd
      modifies this, swap.swapMap, swap.sectors
      ensures panicked == old(SwapFullFor(Now(), id))
      ensures !panicked ==> Now() == old(WrittenBack(Now(), id))
      ensures id in old(spt) && (!old(pd)[id].dirty && old(spt)[id].kind != SWAP ==> !panicked && Now() == old(Now()))
      ensures id in old(spt) && (old(pd)[id].dirty && old(spt)[id].kind == MMAP ==>
        !panicked && Now() == old(Now()).(files := files))
      ensures id in old(spt) && (old(spt)[id].kind == SWAP || (old(spt)[id].kind == FILE && old(pd)[id].dirty) ==>
        && (panicked <==> forall k :: 0 <= k < |old(swap.Used())| ==> old(swap.Used())[k])
        && (!panicked ==> id in spt && spt[id].kind == SWAP && files == old(files)))
    {
      EvictionPolicy.SavedByBits(Now(), id);
      MappedFrameInRam(Now(), id);
      MappedHasSpte(Now(), id);
      hide MappingOk, TableOk, FramesOk, SwapOk, EntriesOk;
      panicked := false;
      if pd[id].dirty || spt[id].kind == SWAP {
        if spt[id].kind == MMAP {
          FileWriteAt(spt[id].file, ram[pd[id].frame][..spt[id].readBytes], spt[id].offset);
        } else {
          var index;
          index, panicked := swap.SwapOut(ram[pd[id].frame]);
          if !panicked {
            spt := spt[id := spt[id].(kind := SWAP, swapIndex := index)];
          }
        }
      }
    }

    /** The victim loses its frame, its table entry and its mapping (frame.c:147-151). */
    method ReleaseEntry(v: nat)
      requires Sound() && v < |table| && table[v].id in spt
      modifies this
      ensures Now() == old(Released(Now(), v))
    {
      var fte := table[v];
      spt := spt[fte.id := spt[fte.id].(loaded := false)];
      table := RemoveAt(table, v);
      pd := pd - {fte.id};
      free := free + {fte.frame};
    }

    /** `file_write_at`. */
    method FileWriteAt(file: nat, data: seq<byte>, offset: nat)
      modifies this`files
      ensures files == if file in old(files) then old(files)[file := WriteAt(old(files)[file], data, offset)] else old(files)
    {
      if file in files {
        files := files[file := WriteAt(files[file], data, offset)];
      }
    }

    /** Make sure some frame is free: nothing to do, or `evict_frame`. */
    method MakeRoom() returns (r: Result)
      requires Sound() && Valid(Now())
      modifies this, swap.swapMap, swap.sectors
      ensures match old(Room(Now()))
        case Stuck => r == Hang
        case Panicked => r == Panic
        case Done(st, _) => r == Returned(true) && Now() == st && free != {} && free <= ram.Keys
    {
      EvictableIff(Now());
      if Room(Now()).Done? {
        RoomMade(Now());
      }
      hide Valid, Search;
      r := Returned(true);
      if free == {} {
        if forall i | 0 <= i < |table| :: spt[table[i].id].pinned {
          return Hang;    // evict_frame would never return: see ScanNeverStops
        }
        VictimMapped(Now());
        var panicked := EvictFrame();
        if panicked {
          r := Panic;
        }
      }
    }

    /** `frame_alloc`: a free frame, if need be one taken from another page, entered in the table. */
    method FrameAlloc(zero: bool, id: PageId) returns (r: Alloc)
      requires Sound() && Valid(Now())
      modifies this, swap.swapMap, swap.sectors
      ensures match old(Room(Now()))
        case Stuck => r == AllocHang
        case Panicked => r == AllocPanic
        case Done(st, _) =>
          && r.Frame? && r.f in st.free && r.f in st.ram
          && Now() == Taken(st, id, r.f, zero)
    {
      hide Valid, Room;
      var room := MakeRoom();
      if room == Hang {
        return AllocHang;
      } else if room == Panic {
        return AllocPanic;
      }
      var f :| f in free;
      free := free - {f};
      if zero {
        ram := ram[f := Zeros(PGSIZE)];
      }
      table := table + [Fte(f, id)];
      r := Frame(f);
    }

    /** `free_frame`: the first entry for the frame leaves the table and the frame is free. */
    method FreeFrame(frame: nat)
      requires Sound()
      modifies this`table, this`free
      ensures Now() == old(Now()).(table := table, free := free)
      ensures frame in old(Frames(table)) ==> exists v ::
        0 <= v < |old(table)| && old(table)[v].frame == frame && (forall j :: 0 <= j < v ==> old(table)[j].frame != frame)
        && table == RemoveAt(old(table), v) && free == old(free) + {frame}
      ensures frame !in old(Frames(table)) ==> table == old(table) && free == old(free)
    {
      var e := 0;
      while e < |table|
        invariant 0 <= e <= |table| && table == old(table) && free == old(free)
        invariant forall j :: 0 <= j < e ==> table[j].frame != frame
      {
        if table[e].frame == frame {
          table := RemoveAt(table, e);
          free := free + {frame};
          assert old(table)[e].frame == frame;
          return;
        }
        e := e + 1;
      }
    }

    /** `install_page`: refused if the page is mapped already or the directory finds no memory. */
    method InstallPage(id: PageId, frame: nat, writable: bool, memory: bool) returns (ok: bool)
      requires Sound()
      modifies this`pd
      ensures ok == (memory && id !in old(pd))
      ensures Now() == old(Now()).(pd := if ok then old(pd)[id := Pte(frame, writable, false, false)] else old(pd))
    {
      ok := memory && id !in pd;
      if ok {
        pd := pd[id := Pte(frame, writable, false, false)];
      }
    }

    /** Give back the frame allocated last: what a failed load does. */
    method UndoAlloc(frame: nat, id: PageId, ghost before: seq<Fte>)
      requires Sound() && table == before + [Fte(frame, id)] && frame !in Frames(before)
      modifies this`table, this`free
      ensures Now() == old(Now()).(table := before, free := old(free) + {frame})
    {
      ghost var n := |before|;
      assert table[n].frame == frame;
      forall j | 0 <= j < n ensures table[j].frame != frame {
        assert before[j].frame in Frames(before);
      }
      assert RemoveAt(table, n) == before;
      FreeFrame(frame);
    }

    /** `swap_in` into a mapped page: the copy through its user address marks it accessed and dirty. */
    method SwapInto(id: PageId, frame: nat) returns (panicked: bool)
      requires Sound() && id in spt && spt[id].swapIndex < swap.swapMap.Length && id in pd && pd[id].frame == frame
      modifies this`pd, this`ram, swap.swapMap
      ensures panicked == !old(swap.Used())[spt[id].swapIndex]
      ensures !panicked ==> Now() == old(Now()).(
        used := old(swap.Used())[spt[id].swapIndex := false], ram := old(ram)[frame := swap.Pages()[spt[id].swapIndex]],
        pd := old(pd)[id := old(pd)[id].(accessed := true, dirty := true)])
    {
      var contents;
      contents, panicked := swap.SwapIn(spt[id].swapIndex);
      if !panicked {
        ram := ram[frame := contents];
        pd := pd[id := pd[id].(accessed := true, dirty := true)];
      }
    }

    /** `load_swap` once `frame_alloc` took a frame of `room` for the page. */
    method FillFromSwap(id: PageId, frame: nat, memory: bool, ghost room: State) returns (ok: bool)
      requires Sound() && Now() == Taken(room, id, frame, false)
      requires id in room.spt && id !in room.pd && frame in room.free && frame !in Frames(room.table)
      requires room.spt[id].swapIndex < |room.used| && room.used[room.spt[id].swapIndex]
      modifies this, swap.swapMap
      ensures Ends(Returned(ok), Now(), LoadSwap(room, id, frame, memory))
    {
      hide Frames;
      ok := InstallPage(id, frame, spt[id].writable, memory);
      if !ok {
        UndoAlloc(frame, id, room.table);
        assert room.free - {frame} + {frame} == room.free;
        return;
      }
      var panicked := SwapInto(id, frame);
      spt := spt[id := spt[id].(loaded := true)];
    }

    /** `load_swap`. */
    method LoadFromSwap(id: PageId, memory: bool) returns (r: Result, ghost f: nat)
      requires Sound() && Inv(Now()) && id in spt && SwappedOut(spt[id])
      modifies this, swap.swapMap, swap.sectors
      ensures Grants(old(Now()), f) && Ends(r, Now(), BroughtIn(old(Now()), id, f, memory))
    {
      ReadyToLoad(Now(), id);
      hide Inv, Valid, Room, LoadSwap;
      f := 0;
      var alloc := FrameAlloc(false, id);
      if !alloc.Frame? {
        return if alloc.AllocPanic? then Panic else Hang, f;
      }
      f := alloc.f;
      var ok := FillFromSwap(id, alloc.f, memory, Room(old(Now())).st);
      r := Returned(ok);
    }

    /** `file_read_at`: the bytes that exist go to the start of the frame. */
    method FileReadAt(file: nat, frame: nat, size: nat, offset: nat) returns (count: nat)
      requires Sound() && frame in ram && size <= PGSIZE
      modifies this`ram
      ensures count <= size && Now() == old(Now()).(ram := ram)
      ensures count == size <==> size == 0 || (file in files && offset + size <= |files[file]|)
      ensures count == size && size > 0 ==>
        ram == old(ram)[frame := files[file][offset..offset + size] + old(ram)[frame][size..]]
      ensures size > 0 && count < size ==> ram == old(ram)[frame := ShortCopy(files, file, offset, old(ram)[frame])]
    {
      if file !in files || offset >= |files[file]| {
        assert ram == ram[frame := ram[frame]];
        return 0;
      }
      count := if offset + size <= |files[file]| then size else |files[file]| - offset;
      assert count < size ==> files[file][offset..offset + count] == files[file][offset..];
      ram := ram[frame := files[file][offset..offset + count] + ram[frame][count..]];
    }

    /** `load_file` once `frame_alloc` took a frame of `room` for the page. */
    method FillFromFile(id: PageId, frame: nat, memory: bool, ghost room: State) returns (ok: bool)
      requires Sound() && id in room.spt && Now() == Taken(room, id, frame, room.spt[id].readBytes == 0)
      requires id !in room.pd && frame in room.free && frame in room.ram && frame !in Frames(room.table)
      requires room.spt[id].readBytes + room.spt[id].zeroBytes == PGSIZE
      modifies this
      ensures Ends(Returned(ok), Now(), LoadFile(room, id, frame, memory))
    {
      hide Frames;
      var e := spt[id];
      if e.readBytes > 0 {
        var count := FileReadAt(e.file, frame, e.readBytes, e.offset);
        if count != e.readBytes {
          UndoAlloc(frame, id, room.table);
          assert room.free - {frame} + {frame} == room.free;
          return false;
        }
        ram := ram[frame := ram[frame][..e.readBytes] + Zeros(e.zeroBytes)];
      }
      assert ram[frame] == FileBytes(files, e);
      ok := InstallPage(id, frame, e.writable, memory);
      if !ok {
        UndoAlloc(frame, id, room.table);
        assert room.free - {frame} + {frame} == room.free;
        return;
      }
      spt := spt[id := e.(loaded := true)];
    }

    /** `load_file`. */
    method LoadFromFile(id: PageId, memory: bool) returns (r: Result, ghost f: nat)
      requires Sound() && Inv(Now()) && id in spt && !spt[id].loaded && spt[id].kind != SWAP
      modifies this, swap.swapMap, swap.sectors
      ensures Grants(old(Now()), f) && Ends(r, Now(), BroughtIn(old(Now()), id, f, memory))
    {
      ReadyToLoad(Now(), id);
      hide Inv, Valid, Room, LoadFile;
      f := 0;
      var alloc := FrameAlloc(spt[id].readBytes == 0, id);
      if !alloc.Frame? {
        return if alloc.AllocPanic? then Panic else Hang, f;
      }
      f := alloc.f;
      var ok := FillFromFile(id, alloc.f, memory, Room(old(Now())).st);
      r := Returned(ok);
    }

    /** `load_page`. */
    method LoadPage(id: PageId, memory: bool) returns (r: Result, ghost f: nat)
      requires Sound() && Inv(Now()) && id in spt
      modifies this, swap.swapMap, swap.sectors
      ensures GrantsFor(old(Now()), id, f) && Ends(r, Now(), PagingSpec.LoadPage(old(Now()), id, f, memory))
    {
      SetPinnedInv(Now(), id, true);
      hide Inv, Valid, Room, BroughtIn;
      spt := spt[id := spt[id].(pinned := true)];
      assert Now() == SetPinned(old(Now()), id, true);
      if spt[id].loaded {
        f := SomeGrant(Now());
        return Returned(false), f;
      }
      match spt[id].kind
      case SWAP => r, f := LoadFromSwap(id, memory);
      case FILE => r, f := LoadFromFile(id, memory);
      case MMAP => r, f := LoadFromFile(id, memory);
    }

    /** `stack_growth`, called outside interrupt handlers. `page_fault` and `check_valid_ptr` call it for a
        page without an entry, `setup_stack` without looking. */
    method StackGrowth(id: PageId, memory: bool) returns (r: Result, ghost f: nat)
      requires Sound() && Inv(Now())
      modifies this, swap.swapMap, swap.sectors
      ensures Grants(old(Now()), f) && Ends(r, Now(), GrowStack(old(Now()), id, f, memory))
    {
      f := SomeGrant(Now());
      if PHYS_BASE - id.upage > MAX_STACK_SIZE {
        return Returned(false), f;
      }
      ReadyToGrow(Now());
      hide Inv, Valid, Room;
      var entry := Spte(SWAP, true, true, true, 0, 0, 0, 0, 0);
      var alloc := FrameAlloc(false, id);
      if !alloc.Frame? {
        return if alloc.AllocPanic? then Panic else Hang, f;
      }
      f := alloc.f;
      var ok := FillStackPage(id, alloc.f, memory, entry, Room(old(Now())).st);
      r := Returned(ok);
    }

    /** The part of `stack_growth` after `frame_alloc`. If the page has an entry already, its new one stays
        out of the table and the frame stays mapped. */
    method FillStackPage(id: PageId, frame: nat, memory: bool, entry: Spte, ghost room: State) returns (ok: bool)
      requires Sound() && Now() == Taken(room, id, frame, false) && entry.writable && entry.loaded
      requires frame in room.free && frame in room.ram && frame !in Frames(room.table)
      modifies this
      ensures ok == (memory && id !in room.pd && id !in room.spt)
      ensures Now() ==
        if !memory || id in room.pd then room
        else if id in room.spt then MappedOnly(room, id, frame)
        else Installed(room.(spt := room.spt[id := entry]), id, frame, room.ram[frame], false)
    {
      hide Frames;
      ok := InstallPage(id, frame, entry.writable, memory);
      if !ok {
        UndoAlloc(frame, id, room.table);
        assert room.free - {frame} + {frame} == room.free;
        return;
      }
      if id in spt {
        return false;
      }
      spt := spt[id := entry];
      assert ram == ram[frame := ram[frame]];
    }

    /** `page_fault`: load the page, grow the stack, or kill the process (`Returned(false)`). */
    method PageFault(tid: nat, addr: word, esp: word, notPresent: bool, memory: bool) returns (r: Result, ghost f: nat)
      requires Sound() && Inv(Now())
      modifies this, swap.swapMap, swap.sectors
      ensures var id := PageId(tid, PageStart(addr));
        && (id in old(spt) ==> GrantsFor(old(Now()), id, f)) && (id !in old(spt) ==> Grants(old(Now()), f))
        && Ends(r, Now(), PageFaultSpec(old(Now()), tid, addr, esp, notPresent, f, memory))
        && (r.Returned? && id in old(spt) && notPresent && USER_VADDR_BOTTOM < addr < PHYS_BASE ==> id in spt && !spt[id].pinned)
    {
      var id := PageId(tid, PageStart(addr));
      if id in spt {
        SetPinnedInv(Now(), id, true);
        f := SomeGrant(SetPinned(Now(), id, true));
      } else {
        f := SomeGrant(Now());
      }
      hide Inv, Valid, GrowStack, PagingSpec.LoadPage;
      r := Returned(false);
      if notPresent && addr > USER_VADDR_BOTTOM && IsUser(addr) {
        if id in spt {
          r, f := LoadPage(id, memory);
          if r.Returned? {
            LoadPageInv(old(Now()), id, f, memory);
            spt := spt[id := spt[id].(pinned := false)];
          }
        } else if addr >= Sub32(esp, STACK_H) {
          r, f := StackGrowth(id, memory);
        }
      }
    }

    /** `check_valid_ptr` (syscall.c:394): the page holding the address is loaded and pinned, or
        else the process exits (`Returned(false)`). */
    method CheckValidPtr(tid: nat, addr: word, esp: word, memory: bool) returns (r: Result)
      requires Sound() && Inv(Now())
      modifies this, swap.swapMap, swap.sectors
      ensures r.Returned? ==> Inv(Now()) && Steadier(old(Now()), Now())
      ensures var id := PageId(tid, PageStart(addr));
        && (r == Returned(true) ==> Held(Now(), id) && (id !in old(spt) ==> spt[id].writable))
        && (r.Returned? ==> r.ok == Checks(old(Now()), tid, addr, esp, memory))
    {
      hide Inv, Valid, Steadier, Held;
      if !IsUser(addr) || addr < USER_VADDR_BOTTOM {
        SteadierFrom(Now());
        return Returned(false);
      }
      var id := PageId(tid, PageStart(addr));
      if id in spt {
        r := CheckEntry(id, memory);
      } else if addr >= Sub32(esp, STACK_H) {
        r := CheckStack(id, memory);
      } else {
        SteadierFrom(Now());
        r := Returned(false);
      }
    }

    /** `check_valid_ptr` for a page with an entry: it counts whether the page is loaded in the end. */
    method CheckEntry(id: PageId, memory: bool) returns (r: Result)
      requires Sound() && Inv(Now()) && id in spt
      modifies this, swap.swapMap, swap.sectors
      ensures r.Returned? ==> Inv(Now()) && Steadier(old(Now()), Now()) && (r.ok ==> Held(Now(), id))
      ensures r.Returned? ==>
        r.ok == old(spt[id].loaded || (memory && (spt[id].kind == SWAP || Fits(files, spt[id]))))
    {
      hide Inv, Valid, Steadier, PagingSpec.LoadPage;
      ghost var f;
      r, f := LoadPage(id, memory);
      if r.Returned? {
        LoadChecks(old(Now()), id, f, memory);
        r := Returned(spt[id].loaded);
      }
    }

    /** `check_valid_ptr` for a page near the stack. */
    method CheckStack(id: PageId, memory: bool) returns (r: Result)
      requires Sound() && Inv(Now()) && id !in spt
      modifies this, swap.swapMap, swap.sectors
      ensures r.Returned? ==> Inv(Now()) && Steadier(old(Now()), Now()) && r.ok == (StackMayReach(id.upage) && memory)
      ensures r == Returned(true) ==> Held(Now(), id) && spt[id].writable
    {
      hide Inv, Valid, Steadier, GrowStack;
      ghost var f;
      r, f := StackGrowth(id, memory);
      if r.Returned? {
        GrowChecks(old(Now()), id, f, memory);
      }
    }

    /** `check_valid_buffer` (syscall.c:487): byte by byte. When it returns, every page of the buffer
        is loaded and pinned, whatever its own loads evicted, and writable if it is to be written. It ends the
        process only at a byte that `check_valid_ptr` refuses, with all pages before it held, or that is on
        a read-only page. */
    method CheckValidBuffer(tid: nat, buffer: word, size: word, esp: word, toWrite: bool, memory: PageId -> bool) returns (r: Result)
      requires Sound() && Inv(Now())
      modifies this, swap.swapMap, swap.sectors
      ensures r.Returned? ==> Inv(Now()) && Steadier(old(Now()), Now())
      ensures r == Returned(true) ==> HeldUpTo(Now(), tid, buffer, size, toWrite)
      ensures r == Returned(false) ==> BufferRefused(old(Now()), tid, buffer, size, esp, toWrite, memory)
    {
      var i := 0;
      var local: word := buffer;
      ghost var start := Now();
      hide Inv, Valid, Steadier, Checks, Checked, HeldUpTo, BufferRefused, Held, Add32, PageStart, ByteAt;
      CheckStarts(start, tid, buffer, toWrite);
      FirstByte(buffer);
      while i < size
        invariant 0 <= i <= size && local == ByteAt(buffer, i)
        invariant Inv(Now()) && Checked(start, Now(), tid, buffer, i, toWrite)
      {
        ghost var before := Now();
        r := CheckByte(tid, local, esp, toWrite, memory(PageId(tid, PageStart(local))));
        if !r.Returned? {
          return;
        }
        CheckedOnward(start, before, Now(), tid, buffer, size, i, local, esp, toWrite, memory);
        if !r.ok {
          return;
        }
        NextByte(buffer, i);
        local := Add32(local, 1);
        i := i + 1;
      }
      CheckEnds(start, Now(), tid, buffer, size, toWrite);
      r := Returned(true);
    }

    /** One trip of `check_valid_buffer`. */
    method CheckByte(tid: nat, local: word, esp: word, toWrite: bool, memory: bool) returns (r: Result)
      requires Sound() && Inv(Now())
      modifies this, swap.swapMap, swap.sectors
      ensures r.Returned? ==> Inv(Now()) && Steadier(old(Now()), Now())
      ensures var id := PageId(tid, PageStart(local));
        && (r == Returned(true) ==> Held(Now(), id) && (toWrite ==> id in spt && spt[id].writable))
        && (r == Returned(false) ==>
            !Checks(old(Now()), tid, local, esp, memory) || (toWrite && id in old(spt) && !old(spt)[id].writable))
    {
      hide Inv, Valid, Checks;
      var id := PageId(tid, PageStart(local));
      var known := id in spt;
      r := CheckValidPtr(tid, local, esp, memory);
      if r == Returned(true) && known && toWrite && !spt[id].writable {
        r := Returned(false);
      }
    }

    /** `unpin_ptr` (syscall.c:517). */
    method UnpinPtr(tid: nat, addr: word)
      requires Sound()
      modifies this`spt
      ensures var id := PageId(tid, PageStart(addr));
        Now() == if id in old(spt) then SetPinned(old(Now()), id, false) else old(Now())
    {
      var id := PageId(tid, PageStart(addr));
      if id in spt {
        spt := spt[id := spt[id].(pinned := false)];
      }
    }

    /** `unpin_buffer` (syscall.c:536): every page of the buffer that has an entry may be evicted again, and
        nothing else changes. */
    method UnpinBuffer(tid: nat, buffer: word, size: word)
      requires Sound()
      modifies this`spt
      ensures Now() == old(Now()).(spt := spt) && spt.Keys == old(spt).Keys
      ensures forall id :: id in spt ==> spt[id] == if Spanned(tid, buffer, size, id) then old(spt)[id].(pinned := false) else old(spt)[id]
    {
      var i := 0;
      var local: word := buffer;
      FirstByte(buffer);
      hide PageStart, Add32, ByteAt;
      while i < size
        invariant 0 <= i <= size && local == ByteAt(buffer, i)
        invariant Now() == old(Now()).(spt := spt) && spt.Keys == old(spt).Keys
        invariant forall id :: id in spt ==> spt[id] == if Spanned(tid, buffer, i, id) then old(spt)[id].(pinned := false) else old(spt)[id]
      {
        forall id ensures Spanned(tid, buffer, i + 1, id) <==> Spanned(tid, buffer, i, id) || id == PageId(tid, PageStart(local)) {
          SpannedNext(tid, buffer, i, id);
        }
        UnpinPtr(tid, local);
        NextByte(buffer, i);
        local := Add32(local, 1);
        i := i + 1;
      }
    }

    /** `free_frame` of a mapped page's frame, then `pagedir_clear_page` and the entry's removal. */
    method DropMapped(id: PageId)
      requires Sound() && Valid(Now()) && id in pd
      modifies this`spt, this`pd, this`table, this`free
      ensures Now() == old(Dropped(Now(), id))
    {
      hide Valid, Dropped, Frames, Ids, IndexOf;
      ghost var st := Now();
      FrameListedOnce(st, id);
      FreeFrame(pd[id].frame);
      DroppedIs(st, id, table, free);
      pd := pd - {id};
      spt := spt - {id};
    }

    /** One round of `process_remove_mmap` for an entry still in the table (process.c:660-675). */
    method UnmapPage(id: PageId)
      requires Sound() && Valid(Now()) && id in spt && spt[id].kind == MMAP
      modifies this
      ensures Now() == old(Unmapped(Now(), id))
    {
      if spt[id].loaded {
        MappedFrameInRam(Now(), id);
        if pd[id].dirty {
          SavedToFileValid(Now(), id);
          FileWriteAt(spt[id].file, ram[pd[id].frame][..spt[id].readBytes], spt[id].offset);
        }
        assert Valid(Now());
        hide Valid;
        DropMapped(id);
      } else {
        spt := spt - {id};
      }
    }

    /** `page_function` (page.c:70). */
    method DiscardPage(id: PageId)
      requires Sound() && Valid(Now()) && id in spt
      modifies this`spt, this`pd, this`table, this`free
      ensures Now() == old(Discarded(Now(), id))
    {
      if spt[id].loaded {
        DropMapped(id);
      } else {
        spt := spt - {id};
      }
    }
  }

  /** The page is in memory and no eviction can take it. */
  ghost predicate Held(st: State, id: PageId) {
    id in st.spt && st.spt[id].loaded && st.spt[id].pinned
  }

  /** `b` came from `a` by loads that let go of no held page and lost no page's bytes. */
  ghost predicate Steadier(a: State, b: State)
    requires Valid(a) && Valid(b)
  {
    forall id :: id in a.spt ==>
      id in b.spt && (Held(a, id) ==> Held(b, id)) && a.spt[id].writable == b.spt[id].writable && View(a, id) == View(b, id)
  }

  /** The address of byte `k` of a user buffer; addresses wrap. */
  function ByteAt(buffer: word, k: nat): word {
    (buffer + k) % ADDRESS_SPACE
  }

  lemma FirstByte(buffer: word)
    ensures ByteAt(buffer, 0) == buffer
  {
  }

  lemma NextByte(buffer: word, k: nat)
    ensures Add32(ByteAt(buffer, k), 1) == ByteAt(buffer, k + 1)
  {
    AddWraps(buffer + k, 1);
  }

  /** The page of byte `k` of a user buffer is held, and writable if it must be. */
  ghost predicate ByteHeld(st: State, tid: nat, buffer: word, k: nat, toWrite: bool) {
    var id := PageId(tid, PageStart(ByteAt(buffer, k)));
    Held(st, id) && (toWrite ==> st.spt[id].writable)
  }

  lemma StillHeld(a: State, b: State, tid: nat, buffer: word, k: nat, toWrite: bool)
    requires Valid(a) && Valid(b) && Steadier(a, b) && ByteHeld(a, tid, buffer, k, toWrite)
    ensures ByteHeld(b, tid, buffer, k, toWrite)
  {
    hide Valid, View;
  }

  lemma SteadierFrom(a: State)
    requires Inv(a)
    ensures Valid(a) && Steadier(a, a)
  {
    hide View;
  }

  /** The pages of the first `i` bytes of a buffer are held. */
  ghost predicate HeldUpTo(st: State, tid: nat, buffer: word, i: nat, toWrite: bool) {
    forall k: nat :: k < i ==> ByteHeld(st, tid, buffer, k, toWrite)
  }

  /** Some byte of the buffer is on this page. */
  ghost predicate Spanned(tid: nat, buffer: word, size: nat, id: PageId) {
    exists k: nat :: k < size && OnPage(tid, buffer, k, id)
  }

  predicate OnPage(tid: nat, buffer: word, k: nat, id: PageId) {
    id == PageId(tid, PageStart(ByteAt(buffer, k)))
  }

  lemma SpannedNext(tid: nat, buffer: word, i: nat, id: PageId)
    ensures Spanned(tid, buffer, i + 1, id) <==>
      Spanned(tid, buffer, i, id) || id == PageId(tid, PageStart(ByteAt(buffer, i)))
  {
    if OnPage(tid, buffer, i, id) {
      assert Spanned(tid, buffer, i + 1, id);
    }
    if Spanned(tid, buffer, i, id) {
      var k: nat :| k < i && OnPage(tid, buffer, k, id);
      assert k < i + 1;
    }
  }

  lemma ByteIsHeld(st: State, tid: nat, buffer: word, i: nat, local: word, toWrite: bool)
    requires local == ByteAt(buffer, i) && Held(st, PageId(tid, PageStart(local)))
    requires toWrite ==> PageId(tid, PageStart(local)) in st.spt && st.spt[PageId(tid, PageStart(local))].writable
    ensures ByteHeld(st, tid, buffer, i, toWrite)
  {
  }

  /** In state `s`, which the check has come to with every page before byte `i` held, the byte's address cannot
      be brought in, or its page may not be written. */
  ghost predicate ByteRefused(start: State, s: State, tid: nat, buffer: word, i: nat, esp: word, toWrite: bool,
                              memory: PageId -> bool) {
    var addr: word := ByteAt(buffer, i);
    var id := PageId(tid, PageStart(addr));
    && Inv(s) && Checked(start, s, tid, buffer, i, toWrite)
    && (!Checks(s, tid, addr, esp, memory(id)) || (toWrite && id in s.spt && !s.spt[id].writable))
  }

  ghost predicate BufferRefused(start: State, tid: nat, buffer: word, size: nat, esp: word, toWrite: bool, memory: PageId -> bool) {
    exists i: nat, s: State :: i < size && ByteRefused(start, s, tid, buffer, i, esp, toWrite, memory)
  }

  /** The check has come from `start` to `s`, with the pages of the first `i` bytes held. */
  ghost predicate Checked(start: State, s: State, tid: nat, buffer: word, i: nat, toWrite: bool) {
    Inv(start) && Inv(s) && Steadier(start, s) && HeldUpTo(s, tid, buffer, i, toWrite)
  }

  lemma CheckStarts(start: State, tid: nat, buffer: word, toWrite: bool)
    requires Inv(start)
    ensures Checked(start, start, tid, buffer, 0, toWrite)
  {
    SteadierFrom(start);
  }

  lemma CheckEnds(start: State, s: State, tid: nat, buffer: word, size: nat, toWrite: bool)
    requires Checked(start, s, tid, buffer, size, toWrite)
    ensures Inv(start) && Inv(s) && Steadier(start, s) && HeldUpTo(s, tid, buffer, size, toWrite)
  {
    hide Valid, CleanOk, SharingOk, Steadier;
  }

  /** What one more byte comes to. */
  lemma CheckedOnward(start: State, s: State, now: State, tid: nat, buffer: word, size: nat, i: nat, local: word, esp: word, toWrite: bool,
                      memory: PageId -> bool)
    requires i < size && Checked(start, s, tid, buffer, i, toWrite) && local == ByteAt(buffer, i)
    requires Inv(s) && Inv(now) && Steadier(s, now)
    ensures Inv(start) && Steadier(start, now)
    ensures var id := PageId(tid, PageStart(local));
      && (Held(now, id) && (toWrite ==> id in now.spt && now.spt[id].writable) ==> Checked(start, now, tid, buffer, i + 1, toWrite))
      && (!Checks(s, tid, local, esp, memory(id)) || (toWrite && id in s.spt && !s.spt[id].writable) ==>
          BufferRefused(start, tid, buffer, size, esp, toWrite, memory))
  {
    hide Valid, CleanOk, SharingOk, Steadier, HeldUpTo, Held, Checks, PageStart, View;
    SteadierTrans(start, s, now);
    var id := PageId(tid, PageStart(local));
    if Held(now, id) && (toWrite ==> id in now.spt && now.spt[id].writable) {
      ByteIsHeld(now, tid, buffer, i, local, toWrite);
      HeldOnward(s, now, tid, buffer, i, toWrite);
    }
    if !Checks(s, tid, local, esp, memory(id)) || (toWrite && id in s.spt && !s.spt[id].writable) {
      assert ByteRefused(start, s, tid, buffer, i, esp, toWrite, memory);
    }
  }

  /** Holding one more byte's page lets go of none before it. */
  lemma HeldOnward(a: State, b: State, tid: nat, buffer: word, i: nat, toWrite: bool)
    requires Valid(a) && Valid(b) && Steadier(a, b) && HeldUpTo(a, tid, buffer, i, toWrite)
    requires ByteHeld(b, tid, buffer, i, toWrite)
    ensures HeldUpTo(b, tid, buffer, i + 1, toWrite)
  {
    hide Valid, View, Steadier, ByteHeld;
    forall k: nat | k < i ensures ByteHeld(b, tid, buffer, k, toWrite) {
      StillHeld(a, b, tid, buffer, k, toWrite);
    }
  }

  /** After `load_page` a page is pinned, and loaded if it was or could be. */
  lemma LoadChecks(st: State, id: PageId, f: nat, installs: bool)
    requires Inv(st) && id in st.spt && GrantsFor(st, id, f) && PagingSpec.LoadPage(st, id, f, installs).Done?
    ensures var s := PagingSpec.LoadPage(st, id, f, installs).st;
      && Inv(s) && Steadier(st, s) && id in s.spt && s.spt[id].pinned
      && s.spt[id].loaded == (st.spt[id].loaded || (installs && (st.spt[id].kind == SWAP || Fits(st.files, st.spt[id]))))
  {
    hide Inv, Valid, View, Steadier, PagingSpec.LoadPage;
    LoadPageInv(st, id, f, installs);
    LoadSteadier(st, id, f, installs);
  }

  lemma GrowChecks(st: State, id: PageId, f: nat, installs: bool)
    requires Inv(st) && id !in st.spt && Grants(st, f) && GrowStack(st, id, f, installs).Done?
    ensures var out := GrowStack(st, id, f, installs);
      && Inv(out.st) && Steadier(st, out.st) && out.ok == (StackMayReach(id.upage) && installs)
      && (out.ok ==> Held(out.st, id) && out.st.spt[id].writable)
  {
    hide Valid, CleanOk, SharingOk, View, GrowStack;
    GrowStackInv(st, id, f, installs);
  }

  lemma SteadierTrans(a: State, b: State, c: State)
    requires Inv(a) && Inv(b) && Inv(c) && Steadier(a, b) && Steadier(b, c)
    ensures Steadier(a, c)
  {
    hide Valid, View, CleanOk, SharingOk;
  }

  lemma LoadSteadier(st: State, id: PageId, f: nat, installs: bool)
    requires Inv(st) && id in st.spt && GrantsFor(st, id, f) && PagingSpec.LoadPage(st, id, f, installs).Done?
    ensures var s := PagingSpec.LoadPage(st, id, f, installs).st; Inv(s) && Steadier(st, s)
  {
    hide Valid, View, CleanOk, SharingOk, PagingSpec.LoadPage;
    LoadPageInv(st, id, f, installs);
  }

  /** Does `check_valid_ptr` accept the address? */
  ghost predicate Checks(st: State, tid: nat, addr: word, esp: word, memory: bool) {
    var id := PageId(tid, PageStart(addr));
    && IsUser(addr) && addr >= USER_VADDR_BOTTOM
    && if id in st.spt then st.spt[id].loaded || (memory && (st.spt[id].kind == SWAP || Fits(st.files, st.spt[id])))
       else addr >= Sub32(esp, STACK_H) && StackMayReach(id.upage) && memory
  }

  /** When a page fault is served the page is mapped, so the access can be retried; no page's bytes
      change. A page that has an entry is left unpinned whether it could be loaded or not, a new stack page
      stays pinned. The fault is served exactly when the address is a user address above the lowest, absent, and
      either backed by an entry that can be loaded or close enough to the stack. */
  lemma PageFaultServes(st: State, tid: nat, addr: word, esp: word, notPresent: bool, f: nat, installs: bool)
    requires Inv(st)
    requires PageId(tid, PageStart(addr)) in st.spt ==> GrantsFor(st, PageId(tid, PageStart(addr)), f)
    requires PageId(tid, PageStart(addr)) !in st.spt ==> Grants(st, f)
    requires PageFaultSpec(st, tid, addr, esp, notPresent, f, installs).Done?
    ensures var out := PageFaultSpec(st, tid, addr, esp, notPresent, f, installs); var id := PageId(tid, PageStart(addr));
      && Inv(out.st) && (forall b :: b in st.spt ==> b in out.st.spt && View(out.st, b) == View(st, b))
      && (out.ok ==> id in out.st.pd)
      && out.ok == (notPresent && addr > USER_VADDR_BOTTOM && IsUser(addr) && installs
                    && if id in st.spt then !st.spt[id].loaded && (st.spt[id].kind == SWAP || Fits(st.files, st.spt[id]))
                       else addr >= Sub32(esp, 32) && PHYS_BASE - id.upage <= 0x80_0000)
      && (id in st.spt && notPresent && addr > USER_VADDR_BOTTOM && IsUser(addr) ==> !out.st.spt[id].pinned)
      && (id !in st.spt && out.ok ==> out.st.spt[id].pinned)
  {
    var id := PageId(tid, PageStart(addr));
    if notPresent && addr > USER_VADDR_BOTTOM && IsUser(addr) {
      if id in st.spt {
        var mid := PagingSpec.LoadPage(st, id, f, installs).st;
        LoadPageInv(st, id, f, installs);
        SetPinnedInv(mid, id, false);
        LoadedMapped(SetPinned(mid, id, false), id);
        hide Valid, View, CleanOk, SharingOk, PagingSpec.LoadPage;
      } else if addr >= Sub32(esp, STACK_H) {
        GrowStackInv(st, id, f, installs);
        LoadedMapped(GrowStack(st, id, f, installs).st, id);
        hide Valid, View, CleanOk, SharingOk, GrowStack;
      }
    }
  }

  lemma LoadedMapped(st: State, id: PageId)
    requires Inv(st)
    ensures id in st.spt && st.spt[id].loaded ==> id in st.pd
  {
  }

  /** The frame a page is mapped to stands in the table where the page does. */
  lemma FrameListedOnce(st: State, id: PageId)
    requires Valid(st) && id in st.pd
    ensures id in st.spt && st.pd[id].frame in Frames(st.table) && id in Ids(st.table)
    ensures st.table[IndexOf(st.table, id)].frame == st.pd[id].frame
    ensures forall j :: 0 <= j < |st.table| && st.table[j].frame == st.pd[id].frame ==> j == IndexOf(st.table, id)
  {
    var v := IndexOf(st.table, id);
    assert st.table[v].frame in Frames(st.table);
    forall j | 0 <= j < |st.table| && st.table[j].frame == st.pd[id].frame ensures j == v {
      assert Differ(st.table, v, j) && Differ(st.table, j, v);
    }
  }

  lemma DroppedIs(st: State, id: PageId, table: seq<Fte>, free: set<nat>)
    requires Valid(st) && id in st.pd
    requires exists v :: 0 <= v < |st.table| && st.table[v].frame == st.pd[id].frame && table == RemoveAt(st.table, v)
    requires free == st.free + {st.pd[id].frame}
    ensures Dropped(st, id) == st.(spt := st.spt - {id}, pd := st.pd - {id}, table := table, free := free)
  {
    FrameListedOnce(st, id);
    hide Valid, RemoveAt, Frames, Ids;
    var e := st.spt[id];
    assert st.spt[id := e.(loaded := false)] - {id} == st.spt - {id};
  }

  lemma ReadyToGrow(st: State)
    requires Inv(st)
    ensures Room(st).Done? ==> Room(st).st.free !! Frames(Room(st).st.table) && Room(st).st.free <= Room(st).st.ram.Keys
  {
    if Room(st).Done? {
      RoomInv(st);
      hide Room, SwapOk, EntriesOk, CleanOk, SharingOk;
    }
  }

  /** What making room guarantees to a page about to be loaded. */
  lemma ReadyToLoad(st: State, id: PageId)
    requires Inv(st) && id in st.spt && !st.spt[id].loaded
    ensures Room(st).Done? ==>
      var room := Room(st).st;
      && id in room.spt && room.spt[id] == st.spt[id] && id !in room.pd && room.free !! Frames(room.table)
      && room.free <= room.ram.Keys
      && (forall f :: f in st.files <==> f in room.files) && (forall f :: f in st.files ==> |room.files[f]| == |st.files[f]|)
      && (st.spt[id].kind != SWAP ==> st.spt[id].readBytes + st.spt[id].zeroBytes == PGSIZE)
      && (SwappedOut(st.spt[id]) ==> st.spt[id].swapIndex < |room.used| && room.used[st.spt[id].swapIndex])
  {
    if Room(st).Done? {
      RoomInv(st);
      var room := Room(st).st;
      if SwappedOut(st.spt[id]) {
        SwappedOutSlot(room, id);
      }
      hide Room, SwapOk, EntriesOk, CleanOk, SharingOk;
    }
  }

  lemma RoomMade(st: State)
    requires Valid(st) && Room(st).Done?
    ensures Room(st).st.free != {} && Room(st).st.free <= Room(st).st.ram.Keys
  {
    if st.free == {} {
      assert st.table[Victim(st)].frame in Frames(st.table);
    }
  }

  lemma TableEntryMapped(st: State, e: nat)
    requires Valid(st) && e < |st.table|
    ensures st.table[e].id in st.pd && st.table[e].id in st.spt
  {
  }

  lemma MappedHasSpte(st: State, id: PageId)
    requires Valid(st) && id in st.pd
    ensures id in st.spt && (st.spt[id].kind == MMAP ==> st.spt[id].readBytes <= PGSIZE)
  {
  }

  lemma EvictableIff(st: State)
    requires Valid(st)
    ensures forall i :: 0 <= i < |st.table| ==> st.table[i].id in st.spt
    ensures Evictable(st) <==> exists i :: 0 <= i < |st.table| && !st.spt[st.table[i].id].pinned
  {
    if Evictable(st) {
      assert Unpinned(st, Search(st, 0, false));
    } else {
      forall i | 0 <= i < |st.table| ensures st.spt[st.table[i].id].pinned {
        assert !Unpinned(st, i);
      }
    }
  }
}
