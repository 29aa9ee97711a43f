/** Lazy loading gives the process the same memory as eager loading, whatever is paged in when. */
module LazyLoading {
  import opened Machine
  import opened Elf
  import opened PagingSpec
  import opened PagingProofs
  import opened PagingRuns
  import opened Loader

  /** The executable, short enough for an `off_t`, holds all the bytes the segment reads. */
  predicate LongEnough(seg: Segment, bytes: seq<byte>) {
    && |bytes| < 0x8000_0000
    && (seg.readBytes == 0 || seg.ofs + seg.readBytes <= |bytes|)
  }

  ghost predicate NoClash(keys: set<PageId>, seg: Segment) {
    forall k :: 0 <= k < PageCount(seg) ==> !Clash(keys, seg, k)
  }

  // ---------------------------------------------------------------- entry by entry

  /** An entry of the lazy table stands for the page the eager loop builds. */
  lemma EntryIsEagerPage(seg: Segment, files: map<nat, seq<byte>>, k: nat)
    requires seg.file in files && LongEnough(seg, files[seg.file])
    ensures FileBytes(files, SegEntry(seg, k)) == EagerPage(seg, files[seg.file], k).contents
    ensures SegEntry(seg, k).writable == EagerPage(seg, files[seg.file], k).writable
  {
    var e := SegEntry(seg, k);
    NextOffset(seg, k);
    ReadMonotone(seg, k + 1);
    if PageRead(seg, k) > 0 {
      assert seg.ofs + ReadBefore(seg, k) < ADDRESS_SPACE;
      assert e.offset == seg.ofs + ReadBefore(seg, k);
    }
  }

  lemma {:induction false} TableEntry(spt: map<PageId, Spte>, seg: Segment, n: nat, k: nat)
    requires k < n <= PageCount(seg) && NoClash(spt.Keys, seg)
    ensures SegId(seg, k) in WithPages(spt, seg, n) && WithPages(spt, seg, n)[SegId(seg, k)] == SegEntry(seg, k)
  {
    if k < n - 1 {
      TableEntry(spt, seg, n - 1, k);
      assert !Clash(spt.Keys, seg, n - 1);
    }
  }

  lemma {:induction false} ImageEntry(pd: map<PageId, Image>, seg: Segment, bytes: seq<byte>, n: nat, k: nat)
    requires k < n <= PageCount(seg) && NoClash(pd.Keys, seg)
    ensures SegId(seg, k) in WithImages(pd, seg, bytes, n)
    ensures WithImages(pd, seg, bytes, n)[SegId(seg, k)] == EagerPage(seg, bytes, k)
  {
    if k < n - 1 {
      ImageEntry(pd, seg, bytes, n - 1, k);
      assert !Clash(pd.Keys, seg, n - 1);
    }
  }

  // ---------------------------------------------------------------- the lazy loop in the paging machine

  function AddEvent(seg: Segment, k: nat): Event {
    AddFile(SegId(seg, k), seg.file, SegEntry(seg, k).offset, PageRead(seg, k), seg.writable)
  }

  /** The lazily loaded state is a state of the paging machine. */
  lemma {:induction false} LazyLoadKeepsInv(st: State, seg: Segment, n: nat)
    requires Inv(st) && n <= PageCount(seg) && NoClash(st.spt.Keys, seg)
    requires forall b :: b in st.spt && st.spt[b].kind == MMAP ==> st.spt[b].file != seg.file
    ensures var s := st.(spt := WithPages(st.spt, seg, n));
      Inv(s) && (forall b :: b in s.spt && s.spt[b].kind == MMAP ==> s.spt[b].file != seg.file)
  {
    if n == 0 {
    } else {
      hide *;
      OnePageFewer(st, seg, n);
      LazyLoadKeepsInv(st, seg, n - 1);
      OnePageMore(st.(spt := WithPages(st.spt, seg, n - 1)), seg, n - 1);
    }
  }

  lemma OnePageFewer(st: State, seg: Segment, n: nat)
    requires 0 < n <= PageCount(seg) && NoClash(st.spt.Keys, seg)
    ensures WithPages(st.spt, seg, n) == WithPages(st.spt, seg, n - 1)[SegId(seg, n - 1) := SegEntry(seg, n - 1)]
    ensures SegId(seg, n - 1) !in WithPages(st.spt, seg, n - 1)
    ensures n - 1 <= PageCount(seg)
  {
    assert !Clash(st.spt.Keys, seg, n - 1);
    WithPagesKeys(st.spt, seg, n - 1, SegId(seg, n - 1));
    hide SegId, SegEntry, PageCount;
  }

  /** Entering one more page of an executable that no mapping is backed by. */
  lemma OnePageMore(s: State, seg: Segment, k: nat)
    requires Inv(s) && SegId(seg, k) !in s.spt
    requires forall b :: b in s.spt && s.spt[b].kind == MMAP ==> s.spt[b].file != seg.file
    ensures var r := s.(spt := s.spt[SegId(seg, k) := SegEntry(seg, k)]);
      Inv(r) && (forall b :: b in r.spt && r.spt[b].kind == MMAP ==> r.spt[b].file != seg.file)
  {
    var ev := AddEvent(seg, k);
    assert FileEntry(ev) == SegEntry(seg, k);
    hide Valid, CleanOk, SharingOk, SegId;
    AddedInv(s, ev);
  }

  /** The state lazy `load_segment` leaves: nothing loaded yet. The executable is write-denied, so no
      mapping may be backed by it. */
  ghost function LazilyLoaded(st: State, seg: Segment): (s: State)
    requires Inv(st) && NoClash(st.spt.Keys, seg)
    requires forall b :: b in st.spt && st.spt[b].kind == MMAP ==> st.spt[b].file != seg.file
    ensures Inv(s)
  {
    LazyLoadKeepsInv(st, seg, PageCount(seg));
    st.(spt := WithPages(st.spt, seg, PageCount(seg)))
  }

  predicate Stores(ev: Event, id: PageId) {
    ev.Write? && ev.id == id
  }

  lemma {:induction false} NoStoreKeepsByte(evs: seq<Event>, id: PageId, i: nat, init: byte)
    requires forall k :: 0 <= k < |evs| ==> !Stores(evs[k], id)
    ensures LastWritten(evs, id, i, init) == init
  {
    if evs != [] {
      assert !Stores(evs[0], id);
      NoStoreKeepsByte(evs[1..], id, i, init);
    }
  }

  /** After any run of faults, evictions, reloads and accesses of other pages, page `k` of the lazily entered
      segment is what the file and the header say, until the process stores to it. */
  lemma LazyShows(st: State, seg: Segment, evs: seq<Event>, k: nat)
    requires Inv(st) && NoClash(st.spt.Keys, seg) && k < PageCount(seg)
    requires seg.file in st.files && LongEnough(seg, st.files[seg.file])
    requires forall b :: b in st.spt && st.spt[b].kind == MMAP ==> st.spt[b].file != seg.file
    requires Run(LazilyLoaded(st, seg), evs).Some?
    requires forall j :: 0 <= j < |evs| ==> !Removes(evs[j], SegId(seg, k)) && !Stores(evs[j], SegId(seg, k))
    ensures Shows(Run(LazilyLoaded(st, seg), evs).value, SegId(seg, k), EagerPage(seg, st.files[seg.file], k))
  {
    var id, bytes := SegId(seg, k), st.files[seg.file];
    var lazily := LazilyLoaded(st, seg);
    TableEntry(st.spt, seg, PageCount(seg), k);
    EntryIsEagerPage(seg, st.files, k);
    var s := Run(lazily, evs).value;
    FirstView(lazily, id);
    LastView(s, id);
    hide Valid, View, CleanOk, SharingOk, Run, WithPages, Clash, FileBytes, SegEntry, EagerPage, SegId, PageCount;
    forall i | 0 <= i < PGSIZE ensures id in s.spt && |View(s, id)| == |View(lazily, id)| && View(s, id)[i] == View(lazily, id)[i] {
      Transparent(lazily, evs, id, i);
      NoStoreKeepsByte(evs, id, i, View(lazily, id)[i]);
    }
    Transparent(lazily, evs, id, 0);
    assert View(s, id) == View(lazily, id);
  }

  /** Page `id` reads as a page of a loaded image, with its permission, wherever its bytes are. */
  ghost predicate Shows(st: State, id: PageId, page: Image)
    requires Inv(st)
  {
    && id in st.spt && st.spt[id].writable == page.writable && View(st, id) == page.contents
    && (id in st.pd ==> Located(st, id) == page.contents && st.pd[id].writable == page.writable)
  }

  /** Lazy loading refines eager loading: whenever the eager loop would succeed, after any run of faults,
      evictions, reloads and accesses of other pages, page `k` of the lazily entered segment holds byte for
      byte what the eager loop leaves there, with the same permission, until the process stores to it. */
  lemma LazyRefinesEager(st: State, seg: Segment, evs: seq<Event>, k: nat, pd: map<PageId, Image>, pool: nat, installs: PageId -> bool)
    requires Inv(st) && NoClash(st.spt.Keys, seg) && k < PageCount(seg)
    requires seg.file in st.files && |st.files[seg.file]| < 0x8000_0000
    requires EagerPossible(seg, st.files[seg.file], pd, pool, installs)
    requires forall b :: b in st.spt && st.spt[b].kind == MMAP ==> st.spt[b].file != seg.file
    requires Run(LazilyLoaded(st, seg), evs).Some?
    requires forall j :: 0 <= j < |evs| ==> !Removes(evs[j], SegId(seg, k)) && !Stores(evs[j], SegId(seg, k))
    ensures var image := WithImages(pd, seg, st.files[seg.file], PageCount(seg));
      SegId(seg, k) in image && Shows(Run(LazilyLoaded(st, seg), evs).value, SegId(seg, k), image[SegId(seg, k)])
  {
    LazyShows(st, seg, evs, k);
    ImageEntry(pd, seg, st.files[seg.file], PageCount(seg), k);
    hide Inv, Shows, Run, SegId, PageCount, Clash, WithImages;
  }

  lemma FirstView(st: State, id: PageId)
    requires Inv(st) && id in st.spt && !st.spt[id].loaded && st.spt[id].kind == FILE
    ensures View(st, id) == FileBytes(st.files, st.spt[id]) && |View(st, id)| == PGSIZE
  {
    UnloadedFileView(st, id);
    WholeFilePage(st.files, st.spt[id]);
  }

  lemma LastView(st: State, id: PageId)
    requires Inv(st)
    ensures id in st.spt && st.spt[id].kind != MMAP && id in st.pd ==>
      View(st, id) == Located(st, id) && st.pd[id].writable == st.spt[id].writable
  {
    if id in st.spt && id in st.pd {
      LoadedView(st, id);
      assert Located(st, id)[..PGSIZE] == Located(st, id);
    }
  }

  /** Every page's bytes are there exactly when the file is as long as the header says. */
  lemma EveryPageFitsIff(seg: Segment, files: map<nat, seq<byte>>)
    requires Asserted(seg) && seg.file in files && seg.ofs <= |files[seg.file]| < 0x8000_0000
    ensures LongEnough(seg, files[seg.file]) <==> forall k :: 0 <= k < PageCount(seg) ==> Fits(files, SegEntry(seg, k))
  {
    var length := |files[seg.file]|;
    if LongEnough(seg, files[seg.file]) {
      forall k | 0 <= k < PageCount(seg) ensures Fits(files, SegEntry(seg, k)) {
        NextOffset(seg, k);
        ReadMonotone(seg, k + 1);
      }
    } else {
      ShortFile(seg, files);
    }
  }

  /** The page in which a short file ends cannot be read. */
  lemma ShortFile(seg: Segment, files: map<nat, seq<byte>>)
    requires Asserted(seg) && seg.file in files && seg.ofs <= |files[seg.file]| < 0x8000_0000
    requires !LongEnough(seg, files[seg.file])
    ensures var k := (|files[seg.file]| - seg.ofs) / PGSIZE;
      k < PageCount(seg) && !Fits(files, SegEntry(seg, k))
  {
    var left := |files[seg.file]| - seg.ofs;
    var k := left / PGSIZE;
    WholePages(seg);
    EndsWithin(left, seg.readBytes);
    PageWithin(left, PageCount(seg));
    hide PageCount, Asserted;
    assert ReadBefore(seg, k) == k * PGSIZE;
    assert SegEntry(seg, k).offset == seg.ofs + k * PGSIZE;
  }

  lemma EndsWithin(j: nat, n: nat)
    requires j < n
    ensures j / PGSIZE * PGSIZE <= j < (j / PGSIZE + 1) * PGSIZE
  {
  }

  // ---------------------------------------------------------------- bytes of an ELF segment

  /** Byte `j` of a segment: the file's, then zeros. */
  lemma SegmentByte(seg: Segment, bytes: seq<byte>, j: nat)
    requires LongEnough(seg, bytes)
    ensures EagerPage(seg, bytes, j / PGSIZE).contents[j % PGSIZE] == if j < seg.readBytes then bytes[seg.ofs + j] else 0
  {
    var k, i := j / PGSIZE, j % PGSIZE;
    assert j == k * PGSIZE + i;
    NextOffset(seg, k);
    ReadMonotone(seg, k + 1);
  }

  function ElfSegment(tid: nat, file: nat, ph: Phdr, writable: bool): Segment {
    var pl := Place(ph);
    Segment(tid, file, pl.filePage, pl.memPage, pl.readBytes, pl.zeroBytes, writable)
  }

  /** An accepted header meets the loader's assertions, and its pages do not clash with each other. */
  lemma ElfSegmentLoads(tid: nat, file: nat, ph: Phdr, writable: bool, fileLength: word)
    requires Validates(ph, fileLength)
    ensures var seg := ElfSegment(tid, file, ph, writable);
      && Asserted(seg)
      && (forall keys: set<PageId> :: (forall k :: 0 <= k < PageCount(seg) ==> SegId(seg, k) !in keys) <==> NoClash(keys, seg))
      && (forall k :: 0 <= k < PageCount(seg) ==> SegId(seg, k).upage == seg.upage + k * PGSIZE < PHYS_BASE)
  {
    hide ElfSegment, SegId, PageCount, Clash, Asserted, Validates, NoClash;
    var seg := ElfSegment(tid, file, ph, writable);
    ElfPlaced(tid, file, ph, writable, fileLength);
    ElfPages(seg);
    forall keys: set<PageId> ensures (forall k :: 0 <= k < PageCount(seg) ==> SegId(seg, k) !in keys) <==> NoClash(keys, seg) {
      ElfClashes(seg, keys);
    }
  }

  lemma ElfPlaced(tid: nat, file: nat, ph: Phdr, writable: bool, fileLength: word)
    requires Validates(ph, fileLength)
    ensures var seg := ElfSegment(tid, file, ph, writable);
      Asserted(seg) && seg.upage + (seg.readBytes + seg.zeroBytes) <= PHYS_BASE
  {
    hide Place, Validates;
    PlacementFits(ph, fileLength);
  }

  /** Pages that do not wrap. */
  lemma ElfPages(seg: Segment)
    requires Asserted(seg) && seg.upage + (seg.readBytes + seg.zeroBytes) <= PHYS_BASE
    ensures forall k :: 0 <= k < PageCount(seg) ==> SegId(seg, k).upage == seg.upage + k * PGSIZE < PHYS_BASE
  {
    WholePages(seg);
    forall k | 0 <= k < PageCount(seg) ensures SegId(seg, k).upage == seg.upage + k * PGSIZE < PHYS_BASE {
      assert k * PGSIZE < PageCount(seg) * PGSIZE;
    }
  }

  lemma ElfClashes(seg: Segment, keys: set<PageId>)
    requires forall k :: 0 <= k < PageCount(seg) ==> SegId(seg, k).upage == seg.upage + k * PGSIZE < PHYS_BASE
    ensures (forall k :: 0 <= k < PageCount(seg) ==> SegId(seg, k) !in keys) <==> NoClash(keys, seg)
  {
    hide SegId, PageCount;
    if forall k :: 0 <= k < PageCount(seg) ==> SegId(seg, k) !in keys {
      forall k | 0 <= k < PageCount(seg) ensures !Clash(keys, seg, k) {
        assert SegId(seg, k).upage == seg.upage + k * PGSIZE;
      }
    } else {
      var k :| 0 <= k < PageCount(seg) && SegId(seg, k) in keys;
      assert Clash(keys, seg, k);
    }
  }

  /** Every accepted header puts file bytes `p_offset..p_offset+p_filesz` at `p_vaddr` and zeros from
      there up to `p_vaddr+p_memsz`, writable exactly if the segment is. */
  lemma ElfBytes(tid: nat, file: nat, ph: Phdr, writable: bool, bytes: seq<byte>, i: nat)
    requires |bytes| < 0x8000_0000 && Validates(ph, |bytes|) && ph.offset + ph.filesz <= |bytes| && i < ph.memsz
    ensures var seg := ElfSegment(tid, file, ph, writable); var a := ph.vaddr + i; var k := (a - seg.upage) / PGSIZE;
      && LongEnough(seg, bytes) && seg.upage <= a < PHYS_BASE && k < PageCount(seg)
      && SegId(seg, k) == PageId(tid, PageStart(a))
      && EagerPage(seg, bytes, k).contents[a % PGSIZE] == (if i < ph.filesz then bytes[ph.offset + i] else 0)
      && EagerPage(seg, bytes, k).writable == writable
      && SegEntry(seg, k).writable == writable && SegEntry(seg, k).file == file && SegEntry(seg, k).kind == FILE
      && !SegEntry(seg, k).loaded && !SegEntry(seg, k).pinned
  {
    var seg := ElfSegment(tid, file, ph, writable);
    hide ElfSegment, EagerPage, SegId, PageCount, Asserted, NoClash, LongEnough, Validates, PageStart;
    ElfOffsets(tid, file, ph, writable, bytes, i);
    ElfSegmentLoads(tid, file, ph, writable, |bytes|);
    WholePages(seg);
    var a := ph.vaddr + i;
    var j := a - seg.upage;
    SamePage(seg.upage, a);
    PageWithin(j, PageCount(seg));
    SegmentByte(seg, bytes, j);
    SegIdOf(seg, j / PGSIZE);
    Permissions(tid, file, ph, writable, bytes, j / PGSIZE);
    PageStartOf(a);
  }

  lemma Permissions(tid: nat, file: nat, ph: Phdr, writable: bool, bytes: seq<byte>, k: nat)
    ensures var seg := ElfSegment(tid, file, ph, writable);
      && EagerPage(seg, bytes, k).writable == writable
      && SegEntry(seg, k).writable == writable && SegEntry(seg, k).file == file && SegEntry(seg, k).kind == FILE
      && !SegEntry(seg, k).loaded && !SegEntry(seg, k).pinned
  {
    hide Place, PageImage;
  }

  lemma SegIdOf(seg: Segment, k: nat)
    ensures SegId(seg, k).tid == seg.tid
  {
  }

  lemma PageStartOf(a: word)
    ensures PageStart(a) == a - a % PGSIZE
  {
  }

  /** Where byte `i` of the region lies in its segment. */
  lemma ElfOffsets(tid: nat, file: nat, ph: Phdr, writable: bool, bytes: seq<byte>, i: nat)
    requires |bytes| < 0x8000_0000 && Validates(ph, |bytes|) && ph.offset + ph.filesz <= |bytes| && i < ph.memsz
    ensures var seg := ElfSegment(tid, file, ph, writable); var j := ph.vaddr + i - seg.upage;
      && seg.tid == tid && seg.upage % PGSIZE == 0
      && LongEnough(seg, bytes) && ph.vaddr + i < PHYS_BASE
      && 0 <= j < seg.readBytes + seg.zeroBytes
      && (j < seg.readBytes <==> i < ph.filesz) && seg.ofs + j == ph.offset + i
  {
    PlacementFits(ph, |bytes|);
    ValidatesMeans(ph, |bytes|);
  }

  lemma PageWithin(j: nat, n: nat)
    requires j < n * PGSIZE
    ensures j / PGSIZE < n
  {
  }

  lemma SamePage(page: nat, a: nat)
    requires page % PGSIZE == 0 && page <= a
    ensures (a - page) % PGSIZE == a % PGSIZE && page + (a - page) / PGSIZE * PGSIZE == a - a % PGSIZE
  {
    var p := page / PGSIZE;
    assert page == p * PGSIZE;
    assert a - page == a - p * PGSIZE;
  }
}
