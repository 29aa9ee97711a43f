/** Which swap slots are in use. */
module SwapAccounting {
  import opened PagingSpec
  import opened PagingProofs
  import opened PagingRuns

  ghost predicate Owned(st: State, s: nat) {
    exists id :: id in st.spt && SwappedOut(st.spt[id]) && st.spt[id].swapIndex == s
  }

  /** No slot is in use except by a swapped-out page. */
  ghost predicate Exact(st: State) {
    forall s: nat :: s < |st.used| && st.used[s] ==> Owned(st, s)
  }

  lemma OwnersKept(a: State, b: State)
    requires Exact(a) && |a.used| == |b.used|
    requires forall s :: 0 <= s < |b.used| && b.used[s] && !a.used[s] ==> Owned(b, s)
    requires forall id :: id in a.spt && SwappedOut(a.spt[id]) && a.spt[id].swapIndex < |b.used| && b.used[a.spt[id].swapIndex] ==>
      id in b.spt && SwappedOut(b.spt[id]) && b.spt[id].swapIndex == a.spt[id].swapIndex
    ensures Exact(b)
  {
    forall s: nat | s < |b.used| && b.used[s] ensures Owned(b, s) {
      if a.used[s] {
        var id :| id in a.spt && SwappedOut(a.spt[id]) && a.spt[id].swapIndex == s;
        assert id in b.spt && b.spt[id].swapIndex == s;
      }
    }
  }

  lemma EvictedExact(st: State)
    requires Inv(st) && Exact(st) && Evictable(st) && st.table[Victim(st)].id in st.pd
    requires !SwapFullFor(st, st.table[Victim(st)].id)
    ensures Exact(Evicted(st))
  {
    hide TableOk, FramesOk, EntriesOk, SharingOk, CleanOk, FileBytes;
    var s := Evicted(st);
    var id := st.table[Victim(st)].id;
    ScannedValid(st);
    if st.pd[id].dirty || st.spt[id].kind == SWAP {
      if st.spt[id].kind != MMAP {
        assert SwappedOut(s.spt[id]) && s.spt[id].swapIndex == FreeSlot(st.used);
        assert Owned(s, FreeSlot(st.used));
      }
    }
    OwnersKept(st, s);
  }

  lemma RoomExact(st: State)
    requires Inv(st) && Exact(st) && Room(st).Done?
    ensures Exact(Room(st).st)
  {
    hide Valid, CleanOk, SharingOk, Evicted;
    if st.free == {} {
      VictimMapped(st);
      EvictedExact(st);
    }
  }

  lemma LoadSwapExact(st: State, id: PageId, f: nat, installs: bool)
    requires Inv(st) && Exact(st) && id in st.spt && SwappedOut(st.spt[id]) && f in st.free
    ensures LoadSwap(st, id, f, installs).Done? && Exact(LoadSwap(st, id, f, installs).st)
  {
    hide Valid, CleanOk, SharingOk;
    SwappedOutSlot(st, id);
    OwnersKept(st, LoadSwap(st, id, f, installs).st);
  }

  lemma LoadFileExact(st: State, id: PageId, f: nat, installs: bool)
    requires Inv(st) && Exact(st) && id in st.spt && st.spt[id].kind != SWAP && f in st.ram
    ensures LoadFile(st, id, f, installs).Done? && Exact(LoadFile(st, id, f, installs).st)
  {
    hide Valid, CleanOk, SharingOk, FileBytes;
    OwnersKept(st, LoadFile(st, id, f, installs).st);
  }

  lemma PinnedExact(st: State, id: PageId, pinned: bool)
    requires Exact(st) && id in st.spt
    ensures Exact(SetPinned(st, id, pinned))
  {
    OwnersKept(st, SetPinned(st, id, pinned));
  }

  lemma LoadPageExact(st: State, id: PageId, f: nat, installs: bool)
    requires Inv(st) && Exact(st) && id in st.spt && GrantsFor(st, id, f) && LoadPage(st, id, f, installs).Done?
    ensures Exact(LoadPage(st, id, f, installs).st)
  {
    hide Valid, CleanOk, SharingOk, FileBytes, View, Exact, SameShape, SameMemory, LoadSwap, LoadFile, Room;
    var pinned := SetPinned(st, id, true);
    SetPinnedInv(st, id, true);
    PinnedExact(st, id, true);
    if !st.spt[id].loaded {
      RoomInv(pinned);
      RoomExact(pinned);
      if st.spt[id].kind == SWAP {
        LoadSwapExact(Room(pinned).st, id, f, installs);
      } else {
        LoadFileExact(Room(pinned).st, id, f, installs);
      }
    }
  }

  lemma GrowExact(st: State, id: PageId, f: nat, installs: bool)
    requires Inv(st) && Exact(st) && Grants(st, f) && !Collides(st, id, installs) && GrowStack(st, id, f, installs).Done?
    ensures Exact(GrowStack(st, id, f, installs).st)
  {
    hide Valid, CleanOk, SharingOk, Room;
    if StackMayReach(id.upage) {
      RoomInv(st);
      RoomExact(st);
      RoomUnmaps(st, id);
      OwnersKept(Room(st).st, GrowStack(st, id, f, installs).st);
    }
  }

  lemma UnmappedExact(st: State, id: PageId)
    requires Inv(st) && Exact(st) && id in st.spt && st.spt[id].kind == MMAP
    ensures Exact(Unmapped(st, id))
  {
    hide CleanOk, SharingOk, FileBytes, FramesOk, SwapOk, EntriesOk;
    OwnersKept(st, Unmapped(st, id));
  }

  /** Tearing a page down frees its frame but never its slot: the accounting stays exact just when
      the page was not swapped out. */
  lemma DiscardLeaks(st: State, id: PageId)
    requires Inv(st) && Exact(st) && id in st.spt
    ensures Exact(Discarded(st, id)) <==> !SwappedOut(st.spt[id])
  {
    hide CleanOk, SharingOk, FileBytes, FramesOk, EntriesOk;
    var s := Discarded(st, id);
    if SwappedOut(st.spt[id]) {
      SwappedOutSlot(st, id);
      var slot := st.spt[id].swapIndex;
      assert s.used[slot];
      assert !Owned(s, slot);
    } else {
      OwnersKept(st, s);
    }
  }

  /** Until a swapped-out page is torn down, exactly the slots of swapped-out pages are in use. */
  lemma StepExact(st: State, ev: Event)
    requires Inv(st) && Exact(st) && Enabled(st, ev) && Step(st, ev).Done?
    requires ev.Discard? ==> !SwappedOut(st.spt[ev.id])
    ensures Exact(Step(st, ev).st)
  {
    hide Valid, CleanOk, SharingOk, FileBytes, Exact, LoadPage, GrowStack, Unmapped, Discarded;
    match ev
    case Fault(id, f, installs) =>
      LoadPageExact(st, id, f, installs);
      LoadPageInv(st, id, f, installs);
      PinnedExact(LoadPage(st, id, f, installs).st, id, false);
    case Pin(id, f, installs) => LoadPageExact(st, id, f, installs);
    case Unpin(id) => PinnedExact(st, id, false);
    case Grow(id, f, installs) => GrowExact(st, id, f, installs);
    case Unmap(id) => UnmappedExact(st, id);
    case Discard(id) => DiscardLeaks(st, id);
    case _ => OwnersKept(st, Step(st, ev).st);
  }

  /** Over a run with no teardown, exactly the slots of swapped-out pages are in use. */
  lemma {:induction false} RunExact(st: State, evs: seq<Event>)
    requires Inv(st) && Exact(st) && Run(st, evs).Some?
    requires forall k :: 0 <= k < |evs| ==> !evs[k].Discard?
    ensures Exact(Run(st, evs).value)
    decreases |evs|
  {
    hide Valid, CleanOk, SharingOk, Exact, Step, Enabled;
    if evs != [] {
      assert !evs[0].Discard?;
      StepKeeps(st, evs[0]);
      StepExact(st, evs[0]);
      RunExact(Step(st, evs[0]).st, evs[1..]);
    }
  }
}
