/** Stack growth at a page that has an entry already. `page_fault` and the checks of system calls look for
    one first; `setup_stack` (userprog/process.c:495) does not, and a segment may cover its page. */
module GrowthCollision {
  import opened Machine
  import opened Elf
  import opened PagingSpec
  import opened PagingProofs
  import opened Loader
  import opened LazyLoading

  // ---------------------------------------------------------------- when the invariant is kept

  lemma CollisionLeaves(st: State, id: PageId, f: nat, installs: bool)
    requires Inv(st) && Grants(st, f) && GrowStack(st, id, f, installs).Done? && Collides(st, id, installs)
    ensures Room(st).Done? && GrowStack(st, id, f, installs) == Done(MappedOnly(Room(st).st, id, f), false)
    ensures var room := Room(st).st;
      && Inv(room) && SameMemory(st, room) && SameShape(st, room)
      && f in room.free && id in room.spt && id !in room.pd && !room.spt[id].loaded
  {
    RoomInv(st);
    RoomUnmaps(st, id);
    Unloaded(Room(st).st, id);
    hide Valid, CleanOk, SharingOk, SameMemory, SameShape, Room;
  }

  lemma Unloaded(st: State, id: PageId)
    requires Valid(st) && id in st.spt && id !in st.pd
    ensures !st.spt[id].loaded
  {
  }

  /** Stack growth keeps "mapped exactly when loaded", and with it the whole invariant, exactly when it does
      not collide. */
  lemma GrowthKeepsValidIff(st: State, id: PageId, f: nat, installs: bool)
    requires Inv(st) && Grants(st, f) && GrowStack(st, id, f, installs).Done?
    ensures var s := GrowStack(st, id, f, installs).st;
      && (MappingOk(s.spt, s.pd) <==> !Collides(st, id, installs))
      && (Inv(s) <==> !Collides(st, id, installs))
  {
    hide View, CleanOk, SharingOk, GrowStack, Collides, TableOk, FramesOk, SwapOk, EntriesOk;
    if Collides(st, id, installs) {
      CollisionLeaves(st, id, f, installs);
      hide Room;
    } else {
      GrowStackInv(st, id, f, installs);
    }
  }

  // ---------------------------------------------------------------- what the end of the process makes of it

  /** `page_function` (page.c:70), which goes by what the entry says. */
  function Torn(st: State, id: PageId): State {
    if id !in st.spt then st
    else if st.spt[id].loaded && id in Ids(st.table) then
      var s := Released(st, IndexOf(st.table, id));
      s.(spt := s.spt - {id})
    else st.(spt := st.spt - {id})
  }

  /** `page_table_destroy` over a process's entries, in whatever order the hash table has them. */
  function AllTorn(st: State, ids: seq<PageId>): State
    decreases |ids|
  {
    if ids == [] then st else AllTorn(Torn(st, ids[0]), ids[1..])
  }

  /** `pagedir_destroy`: every frame still mapped goes back to the pool. */
  function DirectoryDestroyed(st: State, tid: nat): State {
    st.(pd := map id | id in st.pd && id.tid != tid :: st.pd[id],
        free := st.free + set id | id in st.pd && id.tid == tid :: st.pd[id].frame)
  }

  /** The end of `process_exit` (userprog/process.c:168-184). */
  function Exited(st: State, tid: nat, ids: seq<PageId>): State {
    DirectoryDestroyed(AllTorn(st, ids), tid)
  }

  /** The entries of a process. */
  predicate EntriesOf(spt: map<PageId, Spte>, tid: nat, ids: seq<PageId>) {
    forall id :: id in spt && id.tid == tid ==> id in ids
  }

  lemma TornIsDiscarded(st: State, id: PageId)
    requires Valid(st) && id in st.spt
    ensures Torn(st, id) == Discarded(st, id)
  {
    hide FramesOk, SwapOk, EntriesOk;
  }

  lemma TornInv(st: State, id: PageId)
    requires Inv(st)
    ensures var s := Torn(st, id);
      Inv(s) && s.spt == st.spt - {id} && s.ram.Keys == st.ram.Keys && s.files == st.files
  {
    hide Valid, CleanOk, SharingOk, View, Torn, Discarded;
    if id in st.spt {
      TornIsDiscarded(st, id);
      DiscardedInv(st, id);
    } else {
      NothingTorn(st, id);
    }
  }

  lemma NothingTorn(st: State, id: PageId)
    requires id !in st.spt
    ensures Torn(st, id) == st && st.spt - {id} == st.spt
  {
  }

  lemma {:induction false} AllTornInv(st: State, ids: seq<PageId>)
    requires Inv(st)
    ensures var s := AllTorn(st, ids);
      Inv(s) && s.ram.Keys == st.ram.Keys && forall id :: id in s.spt <==> id in st.spt && id !in ids
    decreases |ids|
  {
    if ids != [] {
      TornInv(st, ids[0]);
      AllTornInv(Torn(st, ids[0]), ids[1..]);
      hide Inv, Torn;
      assert ids == [ids[0]] + ids[1..];
    }
  }

  /** A page directory whose mappings the entries account for is empty by then. */
  lemma NothingLeftMapped(st: State, tid: nat)
    requires Valid(st) && forall id :: id in st.spt ==> id.tid != tid
    ensures DirectoryDestroyed(st, tid) == st
  {
    hide TableOk, FramesOk, SwapOk, EntriesOk;
    assert (map id | id in st.pd && id.tid != tid :: st.pd[id]) == st.pd;
    assert (set id | id in st.pd && id.tid == tid :: st.pd[id].frame) == {};
  }

  lemma IndexBefore(table: seq<Fte>, e: Fte, id: PageId)
    requires id in Ids(table)
    ensures id in Ids(table + [e]) && IndexOf(table + [e], id) == IndexOf(table, id)
  {
    var v := IndexOf(table, id);
    assert (table + [e])[v].id == id;
    if table[0].id != id {
      var j :| 0 <= j < |table| && table[j].id == id;
      assert table[1..][j - 1].id == id;
      IndexBefore(table[1..], e, id);
      assert (table + [e])[1..] == table[1..] + [e];
    }
  }

  /** Tearing other entries down does not touch a frame that is only mapped. */
  lemma TornBeside(st: State, id: PageId, f: nat, b: PageId)
    requires Valid(st) && id !in st.pd && f in st.free
    ensures Torn(MappedOnly(st, id, f), b) == MappedOnly(Torn(st, b), id, f)
    ensures id !in Torn(st, b).pd && f in Torn(st, b).free
  {
    hide SwapOk, EntriesOk;
    if b in st.spt {
      if st.spt[b].loaded {
        IndexBefore(st.table, Fte(f, id), b);
        ReleasedBeside(st, id, f, IndexOf(st.table, b));
        hide Released, MappedOnly, Valid;
      } else {
        hide Valid;
      }
    }
  }

  lemma ReleasedBeside(st: State, id: PageId, f: nat, v: nat)
    requires Valid(st) && id !in st.pd && f in st.free && v < |st.table| && st.table[v].id in st.spt
    ensures Released(MappedOnly(st, id, f), v) == MappedOnly(Released(st, v), id, f)
  {
    hide SwapOk, EntriesOk, MappingOk;
    var g, x := st.table[v].frame, Fte(f, id);
    assert g in Frames(st.table) && st.table[v].id in st.pd;
    hide Valid, FramesOk, TableOk, Frames, Ids;
    assert RemoveAt(st.table + [x], v) == RemoveAt(st.table, v) + [x];
    assert st.pd[id := Pte(f, true, false, false)] - {st.table[v].id} == (st.pd - {st.table[v].id})[id := Pte(f, true, false, false)];
    assert st.free - {f} + {g} == st.free + {g} - {f};
  }

  lemma {:induction false} AllTornBeside(st: State, id: PageId, f: nat, ids: seq<PageId>)
    requires Inv(st) && id !in st.pd && f in st.free
    ensures AllTorn(MappedOnly(st, id, f), ids) == MappedOnly(AllTorn(st, ids), id, f)
    ensures id !in AllTorn(st, ids).pd && f in AllTorn(st, ids).free
    decreases |ids|
  {
    if ids != [] {
      TornBeside(st, id, f, ids[0]);
      TornInv(st, ids[0]);
      AllTornBeside(Torn(st, ids[0]), id, f, ids[1..]);
      hide Inv, Torn, MappedOnly;
    }
  }

  /** A frame that is only mapped goes back to the pool and stays in the frame table. */
  lemma DestroyedWith(st: State, id: PageId, f: nat)
    requires Valid(st) && f in st.free && forall b :: b in st.spt ==> b.tid != id.tid
    ensures var s := DirectoryDestroyed(MappedOnly(st, id, f), id.tid);
      s == st.(table := st.table + [Fte(f, id)])
  {
    hide TableOk, FramesOk, SwapOk, EntriesOk;
    var s := MappedOnly(st, id, f);
    assert (map b | b in s.pd && b.tid != id.tid :: s.pd[b]) == st.pd;
    forall b | b in s.pd && b.tid == id.tid ensures b == id {
    }
    assert id in s.pd && s.pd[id].frame == f;
    assert (set b | b in s.pd && b.tid == id.tid :: s.pd[b].frame) == {f};
    assert st.free - {f} + {f} == st.free;
  }

  /** After stack growth and the end of its process every frame is free or in the table, once, exactly when
      growth did not collide. After a collision the frame table lists a frame that is free, so
      `palloc_get_page` may hand it out a second time. */
  lemma ExitConservesIff(st: State, id: PageId, f: nat, installs: bool, ids: seq<PageId>)
    requires Inv(st) && Grants(st, f) && GrowStack(st, id, f, installs).Done?
    requires EntriesOf(GrowStack(st, id, f, installs).st.spt, id.tid, ids)
    ensures var end := Exited(GrowStack(st, id, f, installs).st, id.tid, ids);
      && end.ram.Keys == st.ram.Keys
      && (|end.free| + |end.table| == |end.ram.Keys| <==> !Collides(st, id, installs))
      && (FramesOk(end.table, end.free, end.ram) <==> !Collides(st, id, installs))
      && (Collides(st, id, installs) ==> f in end.free && f in Frames(end.table))
  {
    hide Valid, CleanOk, SharingOk, Room, Collides, GrowStack, FramesOk, EntriesOf, Exited, Grants;
    if Collides(st, id, installs) {
      CollidedExit(st, id, f, installs, ids);
    } else {
      UsualExit(st, id, f, installs, ids);
    }
  }

  lemma UsualExit(st: State, id: PageId, f: nat, installs: bool, ids: seq<PageId>)
    requires Inv(st) && Grants(st, f) && GrowStack(st, id, f, installs).Done? && !Collides(st, id, installs)
    requires EntriesOf(GrowStack(st, id, f, installs).st.spt, id.tid, ids)
    ensures var end := Exited(GrowStack(st, id, f, installs).st, id.tid, ids);
      && end.ram.Keys == st.ram.Keys && |end.free| + |end.table| == |end.ram.Keys|
      && FramesOk(end.table, end.free, end.ram)
  {
    hide View, CleanOk, SharingOk, GrowStack, Collides, TableOk, MappingOk, FramesOk, SwapOk, EntriesOk, AllTorn;
    var s := GrowStack(st, id, f, installs).st;
    GrowStackInv(st, id, f, installs);
    AllTornInv(s, ids);
    NothingLeftMapped(AllTorn(s, ids), id.tid);
    Conservation(AllTorn(s, ids));
  }

  lemma CollidedExit(st: State, id: PageId, f: nat, installs: bool, ids: seq<PageId>)
    requires Inv(st) && Grants(st, f) && GrowStack(st, id, f, installs).Done? && Collides(st, id, installs)
    requires EntriesOf(GrowStack(st, id, f, installs).st.spt, id.tid, ids)
    ensures var end := Exited(GrowStack(st, id, f, installs).st, id.tid, ids);
      && end.ram.Keys == st.ram.Keys && |end.free| + |end.table| == |end.ram.Keys| + 1
      && f in end.free && f in Frames(end.table) && !FramesOk(end.table, end.free, end.ram)
  {
    hide View, CleanOk, SharingOk, GrowStack, Collides, TableOk, MappingOk, SwapOk, EntriesOk, AllTorn, Room;
    CollisionLeaves(st, id, f, installs);
    var room := Room(st).st;
    AllTornBeside(room, id, f, ids);
    AllTornInv(room, ids);
    var last := AllTorn(room, ids);
    DestroyedWith(last, id, f);
    Conservation(last);
    var end := Exited(GrowStack(st, id, f, installs).st, id.tid, ids);
    assert end.table[|last.table|] == Fte(f, id);
  }

  // ---------------------------------------------------------------- which executables collide

  /** The page `setup_stack` grows the stack by. */
  const STACK_PAGE: word := PHYS_BASE - PGSIZE

  /** An accepted segment covers the stack page exactly when its region reaches that far. */
  lemma CoversStackIff(tid: nat, file: nat, ph: Phdr, writable: bool, fileLength: word)
    requires Validates(ph, fileLength)
    ensures var seg := ElfSegment(tid, file, ph, writable);
      (exists k :: 0 <= k < PageCount(seg) && SegId(seg, k) == PageId(tid, STACK_PAGE)) <==> ph.vaddr + ph.memsz > STACK_PAGE
  {
    var seg := ElfSegment(tid, file, ph, writable);
    var bytes := seg.readBytes + seg.zeroBytes;
    ElfSegmentLoads(tid, file, ph, writable, fileLength);
    WholePages(seg);
    SegmentEnds(tid, file, ph, writable, fileLength);
    hide ElfSegment, PageCount, Validates, NoClash, Clash, Asserted, Place;
    if k :| 0 <= k < PageCount(seg) && SegId(seg, k) == PageId(tid, STACK_PAGE) {
      WholeSteps(k + 1, PageCount(seg));
    }
    if ph.vaddr + ph.memsz > STACK_PAGE {
      var k := (STACK_PAGE - seg.upage) / PGSIZE;
      LastPageAt(seg.upage, k);
      PageWithin(STACK_PAGE - seg.upage, PageCount(seg));
      assert SegId(seg, k) == PageId(tid, STACK_PAGE);
    }
  }

  lemma SegmentEnds(tid: nat, file: nat, ph: Phdr, writable: bool, fileLength: word)
    requires Validates(ph, fileLength)
    ensures var seg := ElfSegment(tid, file, ph, writable); var end := seg.upage + seg.readBytes + seg.zeroBytes;
      && seg.tid == tid && seg.upage % PGSIZE == 0 && seg.upage <= STACK_PAGE
      && ph.vaddr + ph.memsz <= end < ph.vaddr + ph.memsz + PGSIZE
  {
    PlacementFits(ph, fileLength);
    ValidatesMeans(ph, fileLength);
    hide Validates;
  }

  lemma WholeSteps(a: nat, b: nat)
    requires a <= b
    ensures a * PGSIZE <= b * PGSIZE
  {
  }

  lemma LastPageAt(upage: nat, k: nat)
    requires upage % PGSIZE == 0 && upage <= STACK_PAGE && k == (STACK_PAGE - upage) / PGSIZE
    ensures upage + k * PGSIZE == STACK_PAGE
  {
    var p := upage / PGSIZE;
    assert upage == p * PGSIZE && STACK_PAGE == 786431 * PGSIZE;
  }

  /** Once the segments are entered, `setup_stack` collides exactly when one of them reaches into the stack
      page and the page directory has memory: it then fails, and the process leaves a frame behind that is
      both free and in use. */
  lemma SetupStackCollidesIff(st: State, tid: nat, file: nat, ph: Phdr, writable: bool, fileLength: word, installs: bool)
    requires Validates(ph, fileLength) && Inv(st) && NoClash(st.spt.Keys, ElfSegment(tid, file, ph, writable))
    requires forall b :: b in st.spt && st.spt[b].kind == MMAP ==> st.spt[b].file != file
    requires PageId(tid, STACK_PAGE) !in st.spt
    ensures Collides(LazilyLoaded(st, ElfSegment(tid, file, ph, writable)), PageId(tid, STACK_PAGE), installs)
       <==> installs && ph.vaddr + ph.memsz > STACK_PAGE
  {
    var seg, top := ElfSegment(tid, file, ph, writable), PageId(tid, STACK_PAGE);
    CoversStackIff(tid, file, ph, writable, fileLength);
    WithPagesKeys(st.spt, seg, PageCount(seg), top);
    MappedHasEntry(st, top);
    assert StackMayReach(STACK_PAGE);
    hide Valid, ElfSegment, SegId, PageCount, NoClash, WithPages, Validates, CleanOk, SharingOk;
  }

  /** A machine with one free frame and no swap, and a process that enters a file's only segment. */
  function OneFrame(file: nat, bytes: seq<byte>): State {
    State(map[], map[], [], {0}, map[0 := Zeros(PGSIZE)], [], [], map[file := bytes])
  }

  lemma OneFrameInv(file: nat, bytes: seq<byte>)
    ensures Inv(OneFrame(file, bytes))
  {
  }

  /** The accepted header of a one-page segment at the stack page: `load` enters it and `setup_stack` then
      fails, having broken the invariant; when the process has ended its only frame counts twice. */
  lemma StackPageSegmentCollides(tid: nat, file: nat, bytes: seq<byte>, writable: bool)
    requires |bytes| < 0x8000_0000
    ensures var ph := Phdr(0, PHYS_BASE - PGSIZE, 16, 16);
      var seg, st := ElfSegment(tid, file, ph, writable), OneFrame(file, bytes);
      && Validates(ph, |bytes|) && Inv(st) && NoClash(st.spt.Keys, seg)
      && var s := LazilyLoaded(st, seg); var top := PageId(tid, STACK_PAGE);
      && s.spt == map[top := SegEntry(seg, 0)] && Grants(s, 0)
      && var out := GrowStack(s, top, 0, true);
      && out.Done? && !out.ok && !Inv(out.st)
      && var end := Exited(out.st, tid, [top]);
      && end.free == {0} && end.table == [Fte(0, top)]
  {
    StackPageEntered(tid, file, bytes, writable);
    var seg := ElfSegment(tid, file, Phdr(0, PHYS_BASE - PGSIZE, 16, 16), writable);
    OneFrameCollides(LazilyLoaded(OneFrame(file, bytes), seg), PageId(tid, STACK_PAGE));
  }

  lemma StackPageEntered(tid: nat, file: nat, bytes: seq<byte>, writable: bool)
    requires |bytes| < 0x8000_0000
    ensures var ph := Phdr(0, PHYS_BASE - PGSIZE, 16, 16);
      var seg, st := ElfSegment(tid, file, ph, writable), OneFrame(file, bytes);
      && Validates(ph, |bytes|) && Inv(st) && NoClash(st.spt.Keys, seg)
      && LazilyLoaded(st, seg) == st.(spt := map[PageId(tid, STACK_PAGE) := SegEntry(seg, 0)])
  {
    var seg, st := ElfSegment(tid, file, Phdr(0, PHYS_BASE - PGSIZE, 16, 16), writable), OneFrame(file, bytes);
    OneFrameInv(file, bytes);
    assert PageCount(seg) == 1;
    assert WithPages(st.spt, seg, 1) == WithPages(st.spt, seg, 0)[SegId(seg, 0) := SegEntry(seg, 0)];
    hide Valid, CleanOk, SharingOk;
  }

  lemma OneFrameCollides(s: State, top: PageId)
    requires Inv(s) && s.spt.Keys == {top} && !s.spt[top].loaded && top.upage == STACK_PAGE
    requires s.pd == map[] && s.table == [] && s.free == s.ram.Keys == {0}
    ensures Grants(s, 0)
    ensures var out := GrowStack(s, top, 0, true);
      && out.Done? && !out.ok && !Inv(out.st)
      && var end := Exited(out.st, top.tid, [top]);
      && end.free == {0} && end.table == [Fte(0, top)]
  {
    hide Valid, CleanOk, SharingOk, View;
    var out := GrowStack(s, top, 0, true);
    GrowthKeepsValidIff(s, top, 0, true);
    assert [top][1..] == [];
    assert AllTorn(out.st, [top]) == Torn(out.st, top) == out.st.(spt := map[]);
  }
}
