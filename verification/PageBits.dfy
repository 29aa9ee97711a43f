/** Who sets and clears the bits that eviction goes by: pinned, accessed and dirty
    (page.c:137-229, exception.c:166-176, syscall.c:394-544). */
module PageBits {
  import opened Machine
  import opened PagingSpec
  import opened PagingProofs
  import opened PagingRuns
  import opened Vm
  import EvictionPolicy

  // ---------------------------------------------------------------- pins

  /** Making room changes nobody's pin, and leaves the frame of a pinned page where it is. */
  lemma RoomPins(st: State, id: PageId)
    requires Valid(st) && Room(st).Done? && id in st.spt
    ensures id in Room(st).st.spt && Room(st).st.spt[id].pinned == st.spt[id].pinned
    ensures st.spt[id].pinned && id in st.pd ==> id in Room(st).st.pd && Room(st).st.pd[id].frame == st.pd[id].frame
  {
    hide Valid, Evicted, Victim, Evictable, Scanned, SwapFullFor;
    EvictionPolicy.RoomByBits(st);
    if st.free == {} {
      EvictedPins(st, id);
    }
  }

  lemma EvictedPins(st: State, id: PageId)
    requires Valid(st) && Evictable(st) && st.table[Victim(st)].id in st.pd && !SwapFullFor(st, st.table[Victim(st)].id) && id in st.spt
    ensures id in Evicted(st).spt && Evicted(st).spt[id].pinned == st.spt[id].pinned
    ensures st.spt[id].pinned && id in st.pd ==> id in Evicted(st).pd && Evicted(st).pd[id].frame == st.pd[id].frame
  {
    hide Valid, Victim, Evictable, Scanned, SwapFullFor, Evicted, WrittenBack;
    var victim := st.table[Victim(st)].id;
    EvictionPolicy.EvictedIs(st);
    EvictionPolicy.ScannedSame(st, victim);
    EvictionPolicy.SecondChance(st);
    WrittenPins(Scanned(st), victim, id);
    if id in st.pd {
      EvictionPolicy.ScannedSame(st, id);
      EvictionPolicy.WrittenShape(Scanned(st), victim);
    }
  }

  lemma WrittenPins(st: State, id: PageId, b: PageId)
    requires Valid(st) && id in st.pd && !SwapFullFor(st, id) && b in st.spt
    ensures b in WrittenBack(st, id).spt && WrittenBack(st, id).spt[b].pinned == st.spt[b].pinned
  {
    hide Valid;
  }

  /** `load_page` pins its page and nobody else, and moves no pinned page. */
  lemma LoadPins(st: State, id: PageId, f: nat, installs: bool, b: PageId)
    requires Inv(st) && id in st.spt && GrantsFor(st, id, f) && LoadPage(st, id, f, installs).Done? && b in st.spt
    ensures var s := LoadPage(st, id, f, installs).st;
      && b in s.spt && s.spt[b].pinned == (b == id || st.spt[b].pinned)
      && (b in st.pd && (b == id || st.spt[b].pinned) ==> b in s.pd && s.pd[b].frame == st.pd[b].frame)
  {
    hide Valid, CleanOk, SharingOk, Room;
    SetPinnedInv(st, id, true);
    LoadedIffMapped(st, id);
    if !st.spt[id].loaded {
      RoomPins(SetPinned(st, id, true), b);
    }
  }

  lemma LoadedIffMapped(st: State, id: PageId)
    requires Valid(st) && id in st.spt
    ensures id in st.pd <==> st.spt[id].loaded
  {
  }

  lemma GrowPins(st: State, id: PageId, f: nat, installs: bool, b: PageId)
    requires Inv(st) && Grants(st, f) && !Collides(st, id, installs) && GrowStack(st, id, f, installs).Done? && b in st.spt
    ensures var s := GrowStack(st, id, f, installs).st;
      && b in s.spt && s.spt[b].pinned == st.spt[b].pinned
      && (b in st.pd && st.spt[b].pinned ==> b in s.pd && s.pd[b].frame == st.pd[b].frame)
  {
    hide Valid, CleanOk, SharingOk, Room;
    if StackMayReach(id.upage) {
      RoomUnmaps(st, id);
      RoomPins(st, b);
    }
  }

  /** A page is pinned by `check_valid_ptr` and unpinned by `unpin_ptr` and at the end of a page fault, each for
      the page it is about; no other step touches a pin. */
  lemma StepPins(st: State, ev: Event, id: PageId)
    requires Inv(st) && Enabled(st, ev) && Step(st, ev).Done? && id in st.spt && !Removes(ev, id)
    ensures id in Step(st, ev).st.spt
    ensures Step(st, ev).st.spt[id].pinned ==
      if ev.Pin? && ev.id == id then true
      else if (ev.Unpin? || ev.Fault?) && ev.id == id then false
      else st.spt[id].pinned
    ensures id in st.pd && st.spt[id].pinned ==> id in Step(st, ev).st.pd && Step(st, ev).st.pd[id].frame == st.pd[id].frame
  {
    hide Valid, CleanOk, SharingOk, View, FileBytes, LoadPage, GrowStack, Collides, Fits, Apart;
    match ev
    case Fault(b, f, installs) => LoadPins(st, b, f, installs, id);
    case Pin(b, f, installs) => LoadPins(st, b, f, installs, id);
    case Grow(b, f, installs) => GrowPins(st, b, f, installs, id);
    case Unmap(b) => UnmappedInv(st, b);
    case Discard(b) => DiscardedInv(st, b);
    case _ =>
  }

  /** A new entry of a file is neither loaded nor pinned; a new stack page is both. */
  lemma NewPins(st: State, ev: Event, id: PageId)
    requires Inv(st) && Enabled(st, ev) && Step(st, ev).Done? && id !in st.spt && id in Step(st, ev).st.spt
    ensures var e := Step(st, ev).st.spt[id];
      && (ev.Grow? || ev.AddFile? || ev.AddMmap?) && ev.id == id
      && (if ev.Grow? then e.loaded && e.pinned && e.kind == SWAP
          else !e.loaded && !e.pinned && e.kind == (if ev.AddFile? then FILE else MMAP) && e.file == ev.file && e.offset == ev.offset)
  {
    hide Valid, CleanOk, SharingOk, View, FileBytes, GrowStack, Collides, Fits, Apart, Keeps;
    NotNewUnlessMade(st, ev, id);
    if ev.Grow? {
      GrowStackInv(st, ev.id, ev.f, ev.installs);
    }
  }

  lemma NotNewUnlessMade(st: State, ev: Event, id: PageId)
    requires Inv(st) && Enabled(st, ev) && Step(st, ev).Done? && id !in st.spt && id in Step(st, ev).st.spt
    ensures Creates(ev, id)
  {
    hide Valid, CleanOk, SharingOk, View, Step, Enabled;
    StepKeeps(st, ev);
  }

  predicate Unpins(ev: Event, id: PageId) {
    ev.Unpin? && ev.id == id
  }

  /** Over any run, a page that is in memory and pinned stays in its frame until it is unpinned or given back,
      however much is evicted around it. */
  lemma {:induction false} PinnedStaysPut(st: State, evs: seq<Event>, id: PageId)
    requires Inv(st) && Run(st, evs).Some? && id in st.pd && id in st.spt && st.spt[id].pinned
    requires forall k :: 0 <= k < |evs| ==> !Removes(evs[k], id) && !Unpins(evs[k], id)
    ensures var s := Run(st, evs).value; id in s.pd && s.pd[id].frame == st.pd[id].frame && id in s.spt && s.spt[id].pinned
    decreases |evs|
  {
    hide *;
    if evs == [] {
      NoSteps(st);
    } else {
      FirstStep(st, evs, id);
      PinnedStaysPut(Step(st, evs[0]).st, evs[1..], id);
    }
  }

  lemma NoSteps(st: State)
    requires Inv(st)
    ensures Run(st, []) == Some(st)
  {
  }

  lemma FirstStep(st: State, evs: seq<Event>, id: PageId)
    requires Inv(st) && Run(st, evs).Some? && evs != [] && id in st.pd && id in st.spt && st.spt[id].pinned
    requires !Removes(evs[0], id) && !Unpins(evs[0], id)
    ensures Enabled(st, evs[0]) && Step(st, evs[0]).Done?
    ensures var s := Step(st, evs[0]).st;
      && Inv(s) && Run(s, evs[1..]) == Run(st, evs)
      && id in s.pd && s.pd[id].frame == st.pd[id].frame && id in s.spt && s.spt[id].pinned
  {
    assert Enabled(st, evs[0]) && Step(st, evs[0]).Done? && !(evs[0].Fault? && evs[0].id == id);
    hide Valid, CleanOk, SharingOk, View, Step, Keeps, Enabled;
    StepKeeps(st, evs[0]);
    StepPins(st, evs[0], id);
  }

  // ---------------------------------------------------------------- page faults

  /** At an absent user address above the lowest, of a page with an entry, the page-fault handler is one step of
      the paging machine. However it ends the page is left unpinned, and no other page's pin has changed. */
  lemma FaultIsStep(st: State, tid: nat, addr: word, esp: word, f: nat, installs: bool)
    requires Inv(st) && PageId(tid, PageStart(addr)) in st.spt && GrantsFor(st, PageId(tid, PageStart(addr)), f)
    requires PageId(tid, PageStart(addr)) !in st.pd && addr > 0x0804_8000 && addr < 0xC000_0000
    ensures var id := PageId(tid, PageStart(addr)); var out := PageFaultSpec(st, tid, addr, esp, true, f, installs);
      && Enabled(st, Fault(id, f, installs)) && out == Step(st, Fault(id, f, installs))
      && (out.Done? ==> id in out.st.spt && !out.st.spt[id].pinned)
      && (out.Done? ==> forall b :: b in st.spt && b != id ==> b in out.st.spt && out.st.spt[b].pinned == st.spt[b].pinned)
  {
    hide Valid, CleanOk, SharingOk, View, Step, Enabled, PageFaultSpec, GrantsFor, PageStart;
    var id := PageId(tid, PageStart(addr));
    SameFault(st, tid, addr, esp, f, installs);
    var out := PageFaultSpec(st, tid, addr, esp, true, f, installs);
    if out.Done? {
      StepPins(st, Fault(id, f, installs), id);
      forall b | b in st.spt && b != id ensures b in out.st.spt && out.st.spt[b].pinned == st.spt[b].pinned {
        StepPins(st, Fault(id, f, installs), b);
      }
    }
  }

  lemma SameFault(st: State, tid: nat, addr: word, esp: word, f: nat, installs: bool)
    requires Inv(st) && PageId(tid, PageStart(addr)) in st.spt && GrantsFor(st, PageId(tid, PageStart(addr)), f)
    requires PageId(tid, PageStart(addr)) !in st.pd && addr > 0x0804_8000 && addr < 0xC000_0000
    ensures var id := PageId(tid, PageStart(addr));
      Enabled(st, Fault(id, f, installs)) && PageFaultSpec(st, tid, addr, esp, true, f, installs) == Step(st, Fault(id, f, installs))
  {
    hide Valid, CleanOk, SharingOk, View, LoadPage, PageStart, GrantsFor, GrowStack;
    var id := PageId(tid, PageStart(addr));
    if LoadPage(st, id, f, installs).Done? {
      LoadPageInv(st, id, f, installs);
    }
  }

  /** A page loaded from its file is mapped clean and unaccessed; one that comes back from swap is written
      through its own address and so is mapped accessed and dirty. */
  lemma LoadedBits(st: State, id: PageId, f: nat, installs: bool)
    requires Inv(st) && id in st.spt && GrantsFor(st, id, f) && LoadPage(st, id, f, installs).Done? && LoadPage(st, id, f, installs).ok
    ensures var s := LoadPage(st, id, f, installs).st; var swapped := st.spt[id].kind == SWAP;
      id in s.pd && s.pd[id] == Pte(f, st.spt[id].writable, swapped, swapped)
  {
    hide Valid, CleanOk, SharingOk, Room;
    SetPinnedInv(st, id, true);
    if !st.spt[id].loaded {
      RoomInv(SetPinned(st, id, true));
    }
  }

  // ---------------------------------------------------------------- the accessed bit

  /** A page that the user has just read or written is not the next to go while some unpinned page is idle. */
  lemma JustUsedIsSpared(st: State, ev: Event, i: nat)
    requires Inv(st) && (ev.Read? || ev.Write?) && Enabled(st, ev)
    requires var s := Step(st, ev).st; i < |s.table| && EvictionPolicy.Idle(s, i)
    ensures var s := Step(st, ev).st; Inv(s) && Evictable(s) && s.table[Victim(s)].id != ev.id && s.table == st.table
  {
    hide Valid, CleanOk, SharingOk, View, Evictable, Victim;
    StepKeeps(st, ev);
    var s := Step(st, ev).st;
    assert EvictionPolicy.Free(s, i);
    EvictionPolicy.SecondChance(s);
    assert ev.id in s.pd && s.pd[ev.id].accessed;
  }

  // ---------------------------------------------------------------- system calls against faults

  /** A system call accepts an address above USER_VADDR_BOTTOM exactly when the page is in memory or a fault at
      the address would be served. At that address itself it accepts what a fault would refuse, below it
      neither does. */
  lemma ChecksLikeFault(st: State, tid: nat, addr: word, esp: word, f: nat, memory: bool)
    requires Inv(st)
    requires PageId(tid, PageStart(addr)) in st.spt ==> GrantsFor(st, PageId(tid, PageStart(addr)), f)
    requires PageId(tid, PageStart(addr)) !in st.spt ==> Grants(st, f)
    requires PageFaultSpec(st, tid, addr, esp, true, f, memory).Done?
    ensures addr > 0x0804_8000 ==>
      (Checks(st, tid, addr, esp, memory) <==>
       (addr < 0xC000_0000 && PageId(tid, PageStart(addr)) in st.pd) || PageFaultSpec(st, tid, addr, esp, true, f, memory).ok)
    ensures addr < 0x0804_8000 ==> !Checks(st, tid, addr, esp, memory) && !PageFaultSpec(st, tid, addr, esp, true, f, memory).ok
    ensures addr == 0x0804_8000 ==> !PageFaultSpec(st, tid, addr, esp, true, f, memory).ok
    ensures addr == 0x0804_8000 && PageId(tid, addr) in st.pd ==> Checks(st, tid, addr, esp, memory)
  {
    hide Valid, CleanOk, SharingOk, View, PageFaultSpec, GrantsFor, Grants;
    PageFaultServes(st, tid, addr, esp, true, f, memory);
    var id := PageId(tid, PageStart(addr));
    if id in st.spt {
      LoadedIffMapped(st, id);
    }
    if id in st.pd {
      MappedHasEntry(st, id);
    }
  }
}
