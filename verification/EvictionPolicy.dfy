/** Which page an eviction takes and what becomes of it, told by the bits of the pages alone
    (frame.c:36-70, 103-162). */
module EvictionPolicy {
  import opened PagingSpec
  import opened PagingProofs

  // ---------------------------------------------------------------- which page goes

  /** The entry may be taken. */
  predicate Free(st: State, i: nat)
    requires i < |st.table|
  {
    st.table[i].id in st.spt && !st.spt[st.table[i].id].pinned
  }

  /** The entry may be taken and its page was not accessed since its bit was last cleared. */
  predicate Idle(st: State, i: nat)
    requires i < |st.table|
  {
    Free(st, i) && st.table[i].id in st.pd && !st.pd[st.table[i].id].accessed
  }

  predicate NoneBefore(st: State, v: nat, idle: bool)
    requires v <= |st.table|
  {
    forall j :: 0 <= j < v ==> !(if idle then Idle(st, j) else Free(st, j))
  }

  /** Second chance: the first idle entry goes and, if there is none, the first that is not pinned. */
  lemma SecondChance(st: State)
    requires Valid(st)
    ensures Evictable(st) <==> exists i :: 0 <= i < |st.table| && Free(st, i)
    ensures Evictable(st) ==> var v := Victim(st);
      && v < |st.table| && Free(st, v)
      && ((exists i :: 0 <= i < |st.table| && Idle(st, i)) ==> Idle(st, v) && NoneBefore(st, v, true))
      && ((forall i :: 0 <= i < |st.table| ==> !Idle(st, i)) ==> NoneBefore(st, v, false))
  {
    EntriesMapped(st);
    hide Valid, Evictable, Victim;
    FreeIsUnpinned(st);
    var f, i := Search(st, 0, false), Search(st, 0, true);
    EvictableMeans(st);
    if f < |st.table| {
      assert Free(st, f);
    }
    if i < |st.table| {
      assert Idle(st, i);
    }
  }

  lemma EntriesMapped(st: State)
    requires Valid(st)
    ensures forall i :: 0 <= i < |st.table| ==> st.table[i].id in st.spt && st.table[i].id in st.pd
  {
  }

  lemma FreeIsUnpinned(st: State)
    requires Valid(st)
    ensures forall i :: 0 <= i < |st.table| ==> (Free(st, i) <==> Unpinned(st, i))
    ensures forall i :: 0 <= i < |st.table| ==> (Idle(st, i) <==> Unpinned(st, i) && !Accessed(st, i))
  {
    EntriesMapped(st);
    hide Valid;
  }

  lemma EvictableMeans(st: State)
    requires Valid(st)
    ensures Evictable(st) <==> Search(st, 0, false) < |st.table|
    ensures Evictable(st) ==> Victim(st) == if Search(st, 0, true) < |st.table| then Search(st, 0, true) else Search(st, 0, false)
  {
  }

  /** The hand clears the accessed bits of the unpinned pages it passes on its way to the first idle one, or
      of all unpinned pages if none is idle; it changes nothing else. */
  lemma ScanClears(st: State, k: nat)
    requires Valid(st) && Evictable(st) && k <= |st.table| && NoneBefore(st, k, true) && (k < |st.table| ==> Idle(st, k))
    ensures Scanned(st) == st.(pd := Scanned(st).pd) && Scanned(st).pd.Keys == st.pd.Keys
    ensures forall i :: 0 <= i < |st.table| ==>
      var id := st.table[i].id;
      id in st.pd && Scanned(st).pd[id] == if i < k && Free(st, i) then st.pd[id].(accessed := false) else st.pd[id]
  {
    FreeIsUnpinned(st);
    SearchIs(st, k);
    forall i | 0 <= i < |st.table|
      ensures var id := st.table[i].id;
        id in st.pd && Scanned(st).pd[id] == if i < k && Free(st, i) then st.pd[id].(accessed := false) else st.pd[id]
    {
      SweptAt(st, k, i);
    }
  }

  lemma SearchIs(st: State, k: nat)
    requires Valid(st) && k <= |st.table| && NoneBefore(st, k, true) && (k < |st.table| ==> Idle(st, k))
    ensures Search(st, 0, true) == k
  {
    FreeIsUnpinned(st);
    hide Valid, Free;
    var i := Search(st, 0, true);
    assert i < |st.table| ==> Idle(st, i);
  }

  lemma SweptAt(st: State, k: nat, i: nat)
    requires Valid(st) && k <= |st.table| && i < |st.table|
    ensures var id := st.table[i].id;
      id in st.pd && id in st.spt && Swept(st, k)[id] == if i < k && !st.spt[id].pinned then st.pd[id].(accessed := false) else st.pd[id]
  {
    EntriesMapped(st);
    var id := st.table[i].id;
    hide MappingOk, FramesOk, SwapOk, EntriesOk;
    assert i < k ==> st.table[..k][i].id == id;
    if id in Ids(st.table[..k]) {
      var j :| 0 <= j < k && st.table[..k][j].id == id;
      assert Differ(st.table, i, j) && Differ(st.table, j, i);
    }
  }

  // ---------------------------------------------------------------- what becomes of it

  /** A page that was not written since it was loaded from its file, or that is mapped, is let go without a
      slot; any other page needs one, and there being none the kernel panics. */
  lemma SavedByBits(st: State, id: PageId)
    requires Valid(st) && id in st.pd
    ensures id in st.spt && st.pd[id].frame in st.ram
    ensures var e, dirty := st.spt[id], st.pd[id].dirty;
      && (SwapFullFor(st, id) <==> (e.kind == SWAP || (e.kind == FILE && dirty)) && forall k :: 0 <= k < |st.used| ==> st.used[k])
      && (!dirty && e.kind != SWAP ==> WrittenBack(st, id) == st)
    ensures var e, dirty := st.spt[id], st.pd[id].dirty;
      dirty && e.kind == MMAP ==>
        var s := WrittenBack(st, id);
        && s == st.(files := s.files)
        && s.files == (if e.file in st.files then
             st.files[e.file := WriteAt(st.files[e.file], st.ram[st.pd[id].frame][..e.readBytes], e.offset)] else st.files)
    ensures var e, dirty := st.spt[id], st.pd[id].dirty;
      (e.kind == SWAP || (e.kind == FILE && dirty)) && !SwapFullFor(st, id) ==>
        var s := WrittenBack(st, id); var slot := s.spt[id].swapIndex;
        && slot < |st.used| && !st.used[slot] && slot < |st.disk| && (forall k :: 0 <= k < slot ==> st.used[k])
        && s == st.(spt := st.spt[id := e.(kind := SWAP, swapIndex := slot)],
                    used := st.used[slot := true], disk := st.disk[slot := st.ram[st.pd[id].frame]])
  {
    MappedFrameInRam(st, id);
    hide TableOk, FramesOk;
  }

  /** Eviction saves the page and takes away its frame, its mapping and its place in the table. */
  lemma EvictedIs(st: State)
    requires Valid(st) && Evictable(st) && st.table[Victim(st)].id in st.pd && !SwapFullFor(st, st.table[Victim(st)].id)
    ensures Valid(Scanned(st))
    ensures var v := Victim(st); var id := st.table[v].id;
      && id in Scanned(st).pd && !SwapFullFor(Scanned(st), id)
      && var w := WrittenBack(Scanned(st), id);
      && id in w.spt
      && Evicted(st) == w.(spt := w.spt[id := w.spt[id].(loaded := false)], pd := w.pd - {id},
                           table := w.table[..v] + w.table[v + 1..], free := w.free + {st.table[v].frame})
  {
    hide Valid, Victim, Evictable, Scanned;
    VictimMapped(st);
    ScannedValid(st);
    ScannedSame(st, st.table[Victim(st)].id);
    MappedHasEntry(st, st.table[Victim(st)].id);
  }

  /** What every eviction does. It panics exactly when the page needs a slot and none is free. */
  lemma EvictionTakes(st: State)
    requires Valid(st) && Evictable(st)
    ensures var v := Victim(st); v < |st.table| && st.table[v].id in st.spt && st.table[v].id in st.pd
    ensures var id := st.table[Victim(st)].id; var e, dirty := st.spt[id], st.pd[id].dirty;
      SwapFullFor(st, id) <==> (e.kind == SWAP || (e.kind == FILE && dirty)) && forall k :: 0 <= k < |st.used| ==> st.used[k]
    ensures var v := Victim(st); var id := st.table[v].id;
      !SwapFullFor(st, id) ==>
        var s := Evicted(st);
        && s.pd == Scanned(st).pd - {id} && s.table == st.table[..v] + st.table[v + 1..]
        && s.free == st.free + {st.table[v].frame} && s.ram == st.ram
        && id in s.spt && s.spt == st.spt[id := s.spt[id]] && !s.spt[id].loaded
  {
    hide Valid, Victim, Evictable, SwapFullFor, WrittenBack, Scanned, Evicted;
    VictimMapped(st);
    var id := st.table[Victim(st)].id;
    MappedHasEntry(st, id);
    SavedByBits(st, id);
    if !SwapFullFor(st, id) {
      EvictedIs(st);
      ScannedSame(st, id);
      WrittenShape(Scanned(st), id);
    }
  }

  lemma WrittenShape(st: State, id: PageId)
    requires Valid(st) && id in st.pd && !SwapFullFor(st, id)
    ensures var w := WrittenBack(st, id);
      && w.pd == st.pd && w.table == st.table && w.free == st.free && w.ram == st.ram
      && id in st.spt && id in w.spt && w.spt == st.spt[id := w.spt[id]]
  {
    MappedHasEntry(st, id);
    hide Valid;
  }

  /** A victim that was not written since it was loaded, and never was in swap, goes without a trace: nothing is
      written anywhere and no slot is taken. */
  lemma CleanVictim(st: State)
    requires Valid(st) && Evictable(st)
    requires var id := st.table[Victim(st)].id; id in st.pd && id in st.spt && !st.pd[id].dirty && st.spt[id].kind != SWAP
    ensures var id := st.table[Victim(st)].id;
      && !SwapFullFor(st, id)
      && var s := Evicted(st);
      s.spt == st.spt[id := st.spt[id].(loaded := false)] && s.used == st.used && s.disk == st.disk && s.files == st.files
  {
    hide Valid, Victim, Evictable, SwapFullFor, WrittenBack, Scanned, Evicted;
    var id := st.table[Victim(st)].id;
    SavedByBits(st, id);
    EvictedIs(st);
    ScannedSame(st, id);
    SavedByBits(Scanned(st), id);
  }

  /** A mapped victim that was written goes to its file, and never to swap. */
  lemma MappedVictim(st: State)
    requires Valid(st) && Evictable(st)
    requires var id := st.table[Victim(st)].id; id in st.pd && id in st.spt && st.pd[id].dirty && st.spt[id].kind == MMAP
    ensures var id := st.table[Victim(st)].id; var e := st.spt[id];
      && !SwapFullFor(st, id) && st.pd[id].frame in st.ram
      && var s := Evicted(st);
      && s.spt == st.spt[id := e.(loaded := false)] && s.used == st.used && s.disk == st.disk
      && s.files == (if e.file in st.files then
           st.files[e.file := WriteAt(st.files[e.file], st.ram[st.pd[id].frame][..e.readBytes], e.offset)] else st.files)
  {
    hide Valid, Victim, Evictable, SwapFullFor, WrittenBack, Scanned, Evicted, WriteAt;
    var id := st.table[Victim(st)].id;
    SavedByBits(st, id);
    EvictedIs(st);
    ScannedSame(st, id);
    SavedByBits(Scanned(st), id);
  }

  /** A written page of the executable, and any page that was in swap before, goes to the first free slot and is a
      swap page from then on. */
  lemma SwappedVictim(st: State)
    requires Valid(st) && Evictable(st)
    requires var id := st.table[Victim(st)].id;
      id in st.pd && id in st.spt && (st.spt[id].kind == SWAP || (st.spt[id].kind == FILE && st.pd[id].dirty))
    requires exists k :: 0 <= k < |st.used| && !st.used[k]
    ensures var id := st.table[Victim(st)].id; var e := st.spt[id];
      && !SwapFullFor(st, id) && st.pd[id].frame in st.ram
      && var s := Evicted(st);
      && id in s.spt
      && var slot := s.spt[id].swapIndex;
      && slot < |st.used| && !st.used[slot] && slot < |st.disk| && (forall k :: 0 <= k < slot ==> st.used[k])
      && s.spt == st.spt[id := e.(kind := SWAP, swapIndex := slot, loaded := false)]
      && s.used == st.used[slot := true] && s.disk == st.disk[slot := st.ram[st.pd[id].frame]] && s.files == st.files
  {
    hide Valid, Victim, Evictable, SwapFullFor, WrittenBack, Scanned, Evicted;
    var id := st.table[Victim(st)].id;
    SavedByBits(st, id);
    EvictedIs(st);
    ScannedSame(st, id);
    SavedByBits(Scanned(st), id);
  }

  lemma ScannedSame(st: State, id: PageId)
    requires Valid(st) && Evictable(st) && id in st.pd
    ensures Scanned(st) == st.(pd := Scanned(st).pd) && id in Scanned(st).pd
    ensures Scanned(st).pd[id] == st.pd[id].(accessed := Scanned(st).pd[id].accessed)
  {
    hide Valid;
  }

  /** `frame_alloc` evicts only when no frame is free. It never returns if every entry is pinned, and panics
      exactly if the page that goes needs a slot and all are in use. */
  lemma RoomByBits(st: State)
    requires Valid(st)
    ensures st.free != {} ==> Room(st) == Done(st, true)
    ensures Room(st).Stuck? <==> st.free == {} && forall i :: 0 <= i < |st.table| ==> !Free(st, i)
    ensures Evictable(st) ==> var v := Victim(st); v < |st.table| && st.table[v].id in st.spt && st.table[v].id in st.pd
    ensures Evictable(st) && st.free == {} ==>
      var id := st.table[Victim(st)].id; var e := st.spt[id];
      Room(st).Panicked? <==> (e.kind == SWAP || (e.kind == FILE && st.pd[id].dirty)) && forall k :: 0 <= k < |st.used| ==> st.used[k]
    ensures st.free == {} && Room(st).Done? ==>
      Evictable(st) && !SwapFullFor(st, st.table[Victim(st)].id) && Room(st) == Done(Evicted(st), true)
  {
    SecondChance(st);
    if Evictable(st) {
      EvictionTakes(st);
    }
    hide Valid, Victim, Evictable, SwapFullFor, Evicted, Free, Idle, Scanned;
  }
}
