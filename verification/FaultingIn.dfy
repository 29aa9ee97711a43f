/** Which pages of a lazily entered segment a page fault can bring in. `page_fault` (exception.c:166) serves no
    address at or below USER_VADDR_BOTTOM, and only a fault finds out that the file is short. */
module FaultingIn {
  import opened Machine
  import opened Elf
  import opened PagingSpec
  import opened PagingProofs
  import opened PagingRuns
  import opened Loader
  import opened LazyLoading
  import opened Vm

  // ---------------------------------------------------------------- no page gets in without its bytes

  /** A page that is or was in memory has a file part that exists. */
  predicate BytesExist(st: State, id: PageId) {
    id in st.spt && (st.spt[id].loaded || st.spt[id].kind == SWAP ==> Fits(st.files, st.spt[id]))
  }

  lemma SameFits(a: map<nat, seq<byte>>, b: map<nat, seq<byte>>, e: Spte, e': Spte)
    requires SameOrigin(e, e') && a.Keys == b.Keys && forall f :: f in a ==> |a[f]| == |b[f]|
    ensures Fits(a, e) <==> Fits(b, e')
  {
  }

  /** A page that cannot be loaded is left waiting by every step that does not take its entry away. */
  lemma StepLeavesWaiting(st: State, ev: Event, id: PageId)
    requires Inv(st) && Enabled(st, ev) && Step(st, ev).Done? && !Removes(ev, id)
    requires id in st.spt && !st.spt[id].loaded && st.spt[id].kind == FILE && !Fits(st.files, st.spt[id])
    ensures var s := Step(st, ev).st; id in s.spt && !s.spt[id].loaded && s.spt[id].kind == FILE
  {
    hide Valid, CleanOk, SharingOk, View, FileBytes, LoadPage, GrowStack, Unmapped, Discarded, Collides, Fits, Apart;
    match ev
    case Fault(b, f, installs) => LoadPageInv(st, b, f, installs);
    case Pin(b, f, installs) => LoadPageInv(st, b, f, installs);
    case Grow(b, f, installs) => GrowStackInv(st, b, f, installs);
    case Unmap(b) => UnmappedInv(st, b);
    case Discard(b) => DiscardedInv(st, b);
    case _ =>
  }

  lemma StepBytesExist(st: State, ev: Event, id: PageId)
    requires Inv(st) && Enabled(st, ev) && Step(st, ev).Done? && !Removes(ev, id) && BytesExist(st, id)
    requires st.spt[id].kind != MMAP
    ensures var s := Step(st, ev).st; BytesExist(s, id) && s.spt[id].kind != MMAP
  {
    hide Valid, CleanOk, SharingOk, View, Step, Enabled, Fits;
    StepKeeps(st, ev);
    var s := Step(st, ev).st;
    SameFits(st.files, s.files, st.spt[id], s.spt[id]);
    if !Fits(st.files, st.spt[id]) {
      StepLeavesWaiting(st, ev, id);
    }
  }

  lemma {:induction false} RunBytesExist(st: State, evs: seq<Event>, id: PageId)
    requires Inv(st) && Run(st, evs).Some? && BytesExist(st, id) && st.spt[id].kind != MMAP
    requires forall k :: 0 <= k < |evs| ==> !Removes(evs[k], id)
    ensures BytesExist(Run(st, evs).value, id) && Run(st, evs).value.spt[id].kind != MMAP
    decreases |evs|
  {
    if evs != [] {
      hide Valid, CleanOk, SharingOk, View, Step, Enabled, BytesExist, Keeps;
      assert !Removes(evs[0], id);
      StepKeeps(st, evs[0]);
      StepBytesExist(st, evs[0], id);
      RunBytesExist(Step(st, evs[0]).st, evs[1..], id);
    }
  }

  /** After any run a page of the segment has the entry it was given, with its bytes there if it was ever in. */
  lemma SegmentAfterRun(st: State, seg: Segment, evs: seq<Event>, k: nat)
    requires Inv(st) && NoClash(st.spt.Keys, seg) && k < PageCount(seg)
    requires forall b :: b in st.spt && st.spt[b].kind == MMAP ==> st.spt[b].file != seg.file
    requires Run(LazilyLoaded(st, seg), evs).Some?
    requires forall j :: 0 <= j < |evs| ==> !Removes(evs[j], SegId(seg, k))
    ensures var s := Run(LazilyLoaded(st, seg), evs).value; var id := SegId(seg, k);
      && Inv(s) && BytesExist(s, id) && s.spt[id].kind != MMAP
      && (Fits(s.files, s.spt[id]) <==> Fits(st.files, SegEntry(seg, k)))
  {
    var lazily, id := LazilyLoaded(st, seg), SegId(seg, k);
    TableEntry(st.spt, seg, PageCount(seg), k);
    assert lazily.files == st.files && lazily.spt[id] == SegEntry(seg, k);
    assert BytesExist(lazily, id) && lazily.spt[id].kind != MMAP;
    hide Valid, View, CleanOk, SharingOk, Run, WithPages, Clash, SegEntry, SegId, PageCount, Fits, SameOrigin, BytesExist, LazilyLoaded;
    PageStaysPut(lazily, evs, id);
    RunBytesExist(lazily, evs, id);
    RunConserves(lazily, evs);
    SameFits(lazily.files, Run(lazily, evs).value.files, lazily.spt[id], Run(lazily, evs).value.spt[id]);
  }

  lemma PageStaysPut(st: State, evs: seq<Event>, id: PageId)
    requires Inv(st) && Run(st, evs).Some? && id in st.spt && st.spt[id].kind != MMAP
    requires forall k :: 0 <= k < |evs| ==> !Removes(evs[k], id)
    ensures id in Run(st, evs).value.spt && SameOrigin(st.spt[id], Run(st, evs).value.spt[id])
  {
    hide Run, CleanOk, SharingOk, SameOrigin;
    assert |View(st, id)| == PGSIZE;
    Transparent(st, evs, id, 0);
  }

  // ---------------------------------------------------------------- which faults are served

  /** A fault at an absent page of the segment is served exactly when its address is a user address above the
      lowest one, the page's bytes are there and the mapping can be installed, whatever ran before. */
  lemma FaultServedIff(st: State, seg: Segment, evs: seq<Event>, k: nat, addr: word, esp: word, f: nat, installs: bool)
    requires Inv(st) && NoClash(st.spt.Keys, seg) && k < PageCount(seg)
    requires forall b :: b in st.spt && st.spt[b].kind == MMAP ==> st.spt[b].file != seg.file
    requires Run(LazilyLoaded(st, seg), evs).Some?
    requires forall j :: 0 <= j < |evs| ==> !Removes(evs[j], SegId(seg, k))
    requires PageStart(addr) == SegId(seg, k).upage
    requires var s := Run(LazilyLoaded(st, seg), evs).value; var id := SegId(seg, k);
      && id in s.spt && id !in s.pd && GrantsFor(s, id, f)
      && PageFaultSpec(s, seg.tid, addr, esp, true, f, installs).Done?
    ensures var s := Run(LazilyLoaded(st, seg), evs).value;
      PageFaultSpec(s, seg.tid, addr, esp, true, f, installs).ok <==>
        addr > USER_VADDR_BOTTOM && IsUser(addr) && installs && Fits(st.files, SegEntry(seg, k))
  {
    SegmentAfterRun(st, seg, evs, k);
    var s, id := Run(LazilyLoaded(st, seg), evs).value, SegId(seg, k);
    assert id == PageId(seg.tid, PageStart(addr));
    NotLoaded(s, id);
    PageFaultServes(s, seg.tid, addr, esp, true, f, installs);
    hide Valid, View, CleanOk, SharingOk, Run, WithPages, Clash, SegEntry, SegId, PageCount, Fits, LazilyLoaded, PageFaultSpec, PageStart;
  }

  lemma NotLoaded(s: State, id: PageId)
    requires Valid(s) && id in s.spt && id !in s.pd
    ensures !s.spt[id].loaded
  {
  }

  /** The page is absent, and a frame can be had for it. */
  ghost predicate Absent(s: State, id: PageId)
    requires Inv(s)
  {
    id in s.spt && id !in s.pd && (SetPinnedValid(s, id, true); Room(SetPinned(s, id, true)).Done?)
  }

  /** Some access of the page is served by `page_fault`. */
  ghost predicate CanFaultIn(s: State, id: PageId)
    requires Inv(s) && id in s.spt
  {
    exists addr: word, esp: word, f: nat :: ServedAt(s, id, addr, esp, f)
  }

  ghost predicate ServedAt(s: State, id: PageId, addr: word, esp: word, f: nat)
    requires Inv(s) && id in s.spt
  {
    && PageStart(addr) == id.upage && GrantsFor(s, id, f)
    && var out := PageFaultSpec(s, id.tid, addr, esp, true, f, true);
       out.Done? && out.ok
  }

  /** The bytes of page `k` are there, and it is a user page not below USER_VADDR_BOTTOM. */
  predicate Servable(files: map<nat, seq<byte>>, seg: Segment, k: nat) {
    Fits(files, SegEntry(seg, k)) && USER_VADDR_BOTTOM <= SegId(seg, k).upage < PHYS_BASE
  }

  /** An absent page of the segment can be faulted in exactly when its bytes are there and it is a user page not
      below USER_VADDR_BOTTOM. */
  lemma PageLoadsIff(st: State, seg: Segment, evs: seq<Event>, k: nat)
    requires Asserted(seg) && Inv(st) && NoClash(st.spt.Keys, seg) && k < PageCount(seg)
    requires forall b :: b in st.spt && st.spt[b].kind == MMAP ==> st.spt[b].file != seg.file
    requires Run(LazilyLoaded(st, seg), evs).Some?
    requires forall j :: 0 <= j < |evs| ==> !Removes(evs[j], SegId(seg, k))
    requires Absent(Run(LazilyLoaded(st, seg), evs).value, SegId(seg, k))
    ensures var s := Run(LazilyLoaded(st, seg), evs).value; var id := SegId(seg, k);
      id in s.spt && (CanFaultIn(s, id) <==> Servable(st.files, seg, k))
  {
    var s, id := Run(LazilyLoaded(st, seg), evs).value, SegId(seg, k);
    SegmentAfterRun(st, seg, evs, k);
    hide Valid, View, CleanOk, SharingOk, Run, SegEntry, PageCount, Fits, LazilyLoaded, Servable, ServedAt;
    if CanFaultIn(s, id) {
      var addr: word, esp: word, f: nat :| ServedAt(s, id, addr, esp, f);
      ServedIsServable(st, seg, evs, k, addr, esp, f);
    }
    if Servable(st.files, seg, k) {
      ServableIsServed(st, seg, evs, k);
    }
  }

  lemma ServedIsServable(st: State, seg: Segment, evs: seq<Event>, k: nat, addr: word, esp: word, f: nat)
    requires Inv(st) && NoClash(st.spt.Keys, seg) && k < PageCount(seg)
    requires forall b :: b in st.spt && st.spt[b].kind == MMAP ==> st.spt[b].file != seg.file
    requires Run(LazilyLoaded(st, seg), evs).Some?
    requires forall j :: 0 <= j < |evs| ==> !Removes(evs[j], SegId(seg, k))
    requires Absent(Run(LazilyLoaded(st, seg), evs).value, SegId(seg, k))
    requires ServedAt(Run(LazilyLoaded(st, seg), evs).value, SegId(seg, k), addr, esp, f)
    ensures Servable(st.files, seg, k)
  {
    hide Valid, View, CleanOk, SharingOk, Run, SegEntry, PageCount, Fits, LazilyLoaded, PageFaultSpec, PageStart;
    FaultServedIff(st, seg, evs, k, addr, esp, f, true);
    PageOfUser(addr);
  }

  lemma ServableIsServed(st: State, seg: Segment, evs: seq<Event>, k: nat)
    requires Asserted(seg) && Inv(st) && NoClash(st.spt.Keys, seg) && k < PageCount(seg)
    requires forall b :: b in st.spt && st.spt[b].kind == MMAP ==> st.spt[b].file != seg.file
    requires Run(LazilyLoaded(st, seg), evs).Some?
    requires forall j :: 0 <= j < |evs| ==> !Removes(evs[j], SegId(seg, k))
    requires Absent(Run(LazilyLoaded(st, seg), evs).value, SegId(seg, k)) && Servable(st.files, seg, k)
    ensures CanFaultIn(Run(LazilyLoaded(st, seg), evs).value, SegId(seg, k))
  {
    hide Valid, View, CleanOk, SharingOk, Run, SegEntry, PageCount, Fits, LazilyLoaded, PageFaultSpec, PageStart, Asserted;
    var s, id := Run(LazilyLoaded(st, seg), evs).value, SegId(seg, k);
    var addr, f := InnerAddress(seg, k), FrameFor(s, id);
    FaultReturns(s, id, addr, f);
    FaultServedIff(st, seg, evs, k, addr, 0, f, true);
    assert ServedAt(s, id, addr, 0, f);
  }

  lemma PageOfUser(addr: word)
    requires addr > USER_VADDR_BOTTOM && IsUser(addr)
    ensures USER_VADDR_BOTTOM <= PageStart(addr) < PHYS_BASE
  {
  }

  /** An address inside a page but not its first. */
  function InnerAddress(seg: Segment, k: nat): (addr: word)
    requires Asserted(seg) && SegId(seg, k).upage < PHYS_BASE
    ensures PageStart(addr) == SegId(seg, k).upage && addr > SegId(seg, k).upage && IsUser(addr)
  {
    SegIdAligned(seg, k);
    SegId(seg, k).upage + 1
  }

  lemma SegIdAligned(seg: Segment, k: nat)
    requires Asserted(seg)
    ensures SegId(seg, k).upage % PGSIZE == 0
  {
    assert ADDRESS_SPACE == 1048576 * PGSIZE;
    var p := seg.upage / PGSIZE;
    assert seg.upage + k * PGSIZE == (p + k) * PGSIZE;
  }

  ghost function FrameFor(s: State, id: PageId): (f: nat)
    requires Inv(s) && id in s.spt
    ensures GrantsFor(s, id, f)
  {
    SetPinnedValid(s, id, true);
    SomeGrant(SetPinned(s, id, true))
  }

  lemma FaultReturns(s: State, id: PageId, addr: word, f: nat)
    requires Inv(s) && Absent(s, id) && PageStart(addr) == id.upage && GrantsFor(s, id, f)
    ensures PageFaultSpec(s, id.tid, addr, 0, true, f, true).Done?
  {
    LoadReturns(s, id, f);
    hide Valid, View, CleanOk, SharingOk, Room, PageStart, PagingSpec.LoadPage, GrantsFor;
  }

  lemma LoadReturns(s: State, id: PageId, f: nat)
    requires Inv(s) && Absent(s, id) && GrantsFor(s, id, f)
    ensures PagingSpec.LoadPage(s, id, f, true).Done?
  {
    LoadPagePanics(s, id, f, true);
    NotLoaded(s, id);
    NotStuck(s, id, f);
    hide *;
  }

  lemma NotStuck(s: State, id: PageId, f: nat)
    requires Inv(s) && id in s.spt && GrantsFor(s, id, f) && !s.spt[id].loaded
    requires Valid(SetPinned(s, id, true)) && Room(SetPinned(s, id, true)).Done?
    ensures !PagingSpec.LoadPage(s, id, f, true).Stuck?
  {
    hide Valid, CleanOk, SharingOk, Room;
  }

  // ---------------------------------------------------------------- whole segments

  /** No event takes a page of the segment away. */
  ghost predicate KeepsSegment(evs: seq<Event>, seg: Segment) {
    forall k, j :: 0 <= k < PageCount(seg) && 0 <= j < |evs| ==> !Removes(evs[j], SegId(seg, k))
  }

  ghost predicate AllAbsent(s: State, seg: Segment)
    requires Inv(s)
  {
    forall k :: 0 <= k < PageCount(seg) ==> Absent(s, SegId(seg, k))
  }

  ghost predicate AllCanFaultIn(s: State, seg: Segment)
    requires Inv(s) && AllAbsent(s, seg)
  {
    forall k :: 0 <= k < PageCount(seg) ==> CanFaultIn(s, SegId(seg, k))
  }

  ghost predicate AllUser(seg: Segment) {
    forall k :: 0 <= k < PageCount(seg) ==> USER_VADDR_BOTTOM <= SegId(seg, k).upage < PHYS_BASE
  }

  /** `validate_segment` looks neither at where the file part ends nor at USER_VADDR_BOTTOM, and lazy loading
      succeeds without reading: every page can be faulted in exactly when the file is as long as the header
      says and no page is below the lowest address that faults are served at. */
  lemma EveryPageLoadsIff(st: State, seg: Segment, evs: seq<Event>)
    requires Asserted(seg) && Inv(st) && NoClash(st.spt.Keys, seg)
    requires seg.file in st.files && seg.ofs <= |st.files[seg.file]| < 0x8000_0000
    requires forall b :: b in st.spt && st.spt[b].kind == MMAP ==> st.spt[b].file != seg.file
    requires Run(LazilyLoaded(st, seg), evs).Some? && KeepsSegment(evs, seg)
    requires AllAbsent(Run(LazilyLoaded(st, seg), evs).value, seg)
    ensures AllCanFaultIn(Run(LazilyLoaded(st, seg), evs).value, seg) <==> LongEnough(seg, st.files[seg.file]) && AllUser(seg)
  {
    EverySegmentPage(seg, st.files);
    var s := Run(LazilyLoaded(st, seg), evs).value;
    forall k | 0 <= k < PageCount(seg) ensures SegId(seg, k) in s.spt && (CanFaultIn(s, SegId(seg, k)) <==> Servable(st.files, seg, k)) {
      hide *;
      OnePageLoadsIff(st, seg, evs, k);
    }
    hide Inv, Run, PageCount, Servable, SegId, LazilyLoaded, CanFaultIn, NoClash, Asserted, LongEnough, Absent, KeepsSegment, AllUser;
  }

  lemma EverySegmentPage(seg: Segment, files: map<nat, seq<byte>>)
    requires Asserted(seg) && seg.file in files && seg.ofs <= |files[seg.file]| < 0x8000_0000
    ensures LongEnough(seg, files[seg.file]) && AllUser(seg) <==> forall k :: 0 <= k < PageCount(seg) ==> Servable(files, seg, k)
  {
    EveryPageFitsIff(seg, files);
    hide Fits, SegId, SegEntry, PageCount, LongEnough, Asserted;
    if forall k :: 0 <= k < PageCount(seg) ==> Servable(files, seg, k) {
      forall k | 0 <= k < PageCount(seg) ensures Fits(files, SegEntry(seg, k)) && USER_VADDR_BOTTOM <= SegId(seg, k).upage < PHYS_BASE {
        assert Servable(files, seg, k);
      }
    }
  }

  lemma OnePageLoadsIff(st: State, seg: Segment, evs: seq<Event>, k: nat)
    requires Asserted(seg) && Inv(st) && NoClash(st.spt.Keys, seg) && k < PageCount(seg)
    requires forall b :: b in st.spt && st.spt[b].kind == MMAP ==> st.spt[b].file != seg.file
    requires Run(LazilyLoaded(st, seg), evs).Some? && KeepsSegment(evs, seg)
    requires AllAbsent(Run(LazilyLoaded(st, seg), evs).value, seg)
    ensures var s := Run(LazilyLoaded(st, seg), evs).value; var id := SegId(seg, k);
      id in s.spt && (CanFaultIn(s, id) <==> Servable(st.files, seg, k))
  {
    hide Valid, CleanOk, SharingOk, Run, PageCount, Servable, SegId, LazilyLoaded, CanFaultIn, NoClash, Asserted;
    PageLoadsIff(st, seg, evs, k);
  }

  /** The same of an accepted header, in terms of its members. */
  lemma EveryPageOfElfLoadsIff(st: State, tid: nat, file: nat, ph: Phdr, writable: bool, evs: seq<Event>)
    requires Inv(st) && file in st.files && |st.files[file]| < 0x8000_0000 && Validates(ph, |st.files[file]|)
    requires NoClash(st.spt.Keys, ElfSegment(tid, file, ph, writable))
    requires forall b :: b in st.spt && st.spt[b].kind == MMAP ==> st.spt[b].file != file
    requires var seg := ElfSegment(tid, file, ph, writable);
      Run(LazilyLoaded(st, seg), evs).Some? && KeepsSegment(evs, seg) && AllAbsent(Run(LazilyLoaded(st, seg), evs).value, seg)
    ensures var seg := ElfSegment(tid, file, ph, writable);
      AllCanFaultIn(Run(LazilyLoaded(st, seg), evs).value, seg) <==>
        (ph.filesz == 0 || ph.offset + ph.filesz <= |st.files[file]|) && ph.vaddr >= USER_VADDR_BOTTOM
  {
    var seg := ElfSegment(tid, file, ph, writable);
    hide *;
    ElfMembers(tid, file, ph, writable, st.files[file]);
    EveryPageLoadsIff(st, seg, evs);
  }

  lemma ElfMembers(tid: nat, file: nat, ph: Phdr, writable: bool, bytes: seq<byte>)
    requires |bytes| < 0x8000_0000 && Validates(ph, |bytes|)
    ensures var seg := ElfSegment(tid, file, ph, writable);
      && Asserted(seg) && seg.file == file && seg.ofs <= |bytes|
      && (LongEnough(seg, bytes) <==> ph.filesz == 0 || ph.offset + ph.filesz <= |bytes|)
      && (AllUser(seg) <==> ph.vaddr >= USER_VADDR_BOTTOM)
  {
    var seg := ElfSegment(tid, file, ph, writable);
    ElfSegmentLoads(tid, file, ph, writable, |bytes|);
    PlacementFits(ph, |bytes|);
    WholePages(seg);
    hide SegId, NoClash, Validates, Asserted;
    assert 0 < PageCount(seg);
    assert SegId(seg, 0).upage == seg.upage;
    BottomAligned(seg.upage, ph.vaddr);
  }

  lemma BottomAligned(page: nat, addr: nat)
    requires page % PGSIZE == 0 && page + addr % PGSIZE == addr
    ensures page >= USER_VADDR_BOTTOM <==> addr >= USER_VADDR_BOTTOM
  {
    assert USER_VADDR_BOTTOM == 32840 * PGSIZE;
    var p := page / PGSIZE;
    assert page == p * PGSIZE;
  }

  // ---------------------------------------------------------------- a segment that is never served

  predicate AlwaysInstalls(id: PageId) {
    true
  }

  /** An accepted header at the second page of memory, and a file with all its bytes: eager loading would build
      its page; entered lazily, no access of it is served, by a page fault or in a system call. */
  lemma LowSegmentRefused(st: State, tid: nat, file: nat, writable: bool, bytes: seq<byte>)
    requires |bytes| == PGSIZE && Inv(st) && NoClash(st.spt.Keys, ElfSegment(tid, file, Phdr(0, 0x1000, 16, 16), writable))
    requires forall b :: b in st.spt && st.spt[b].kind == MMAP ==> st.spt[b].file != file
    requires file in st.files && st.files[file] == bytes
    ensures var ph := Phdr(0, 0x1000, 16, 16); var seg := ElfSegment(tid, file, ph, writable);
      && Validates(ph, |bytes|) && PageCount(seg) == 1 && SegId(seg, 0) == PageId(tid, 0x1000)
      && LongEnough(seg, bytes) && Fits(st.files, SegEntry(seg, 0))
      && EagerPossible(seg, bytes, map[], 1, AlwaysInstalls)
      && var s := LazilyLoaded(st, seg);
      SegId(seg, 0) in s.spt && forall addr: word, esp: word, f: nat, memory: bool :: Refused(s, SegId(seg, 0), addr, esp, f, memory)
  {
    var seg := ElfSegment(tid, file, Phdr(0, 0x1000, 16, 16), writable);
    LowHeader(tid, file, writable, st.files);
    TableEntry(st.spt, seg, 1, 0);
    var s := LazilyLoaded(st, seg);
    assert SegId(seg, 0) in s.spt;
    hide Valid, CleanOk, SharingOk, LazilyLoaded, ElfSegment, SegId, PageCount, Refused;
    forall addr: word, esp: word, f: nat, memory: bool ensures Refused(s, SegId(seg, 0), addr, esp, f, memory) {
      LowAddress(s, SegId(seg, 0), addr, esp, f, memory);
    }
  }

  /** An access of the page kills the process, if the page is absent, and so does passing the address to the
      kernel. */
  ghost predicate Refused(s: State, id: PageId, addr: word, esp: word, f: nat, memory: bool)
    requires Valid(s) && id in s.spt
  {
    PageStart(addr) == id.upage && GrantsFor(s, id, f) ==>
      PageFaultSpec(s, id.tid, addr, esp, true, f, memory) == Done(s, false) && !Checks(s, id.tid, addr, esp, memory)
  }

  lemma LowHeader(tid: nat, file: nat, writable: bool, files: map<nat, seq<byte>>)
    requires file in files && |files[file]| == PGSIZE
    ensures var ph := Phdr(0, 0x1000, 16, 16); var seg := ElfSegment(tid, file, ph, writable);
      && Validates(ph, PGSIZE) && PageCount(seg) == 1 && SegId(seg, 0) == PageId(tid, 0x1000)
      && LongEnough(seg, files[file]) && Fits(files, SegEntry(seg, 0)) && EagerPossible(seg, files[file], map[], 1, AlwaysInstalls)
  {
    var seg := ElfSegment(tid, file, Phdr(0, 0x1000, 16, 16), writable);
    assert Place(Phdr(0, 0x1000, 16, 16)) == Placement(0, 0x1000, 16, PGSIZE - 16);
    assert PageRead(seg, 0) == 16;
  }

  lemma LowAddress(s: State, id: PageId, addr: word, esp: word, f: nat, memory: bool)
    requires Valid(s) && id.upage == 0x1000 && id in s.spt
    ensures Refused(s, id, addr, esp, f, memory)
  {
    if PageStart(addr) == 0x1000 {
      assert addr < 0x2000;
    }
    hide Valid;
  }
}
