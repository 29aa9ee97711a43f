/** What frame.c, page.c and swap.c do to the state of demand paging, operation by operation.
    The state is a value; class `Vm` (Vm.dfy) performs the same operations in place. */
module PagingSpec {
  import opened Machine

  /** A virtual page of one process. */
  datatype PageId = PageId(tid: nat, upage: word)

  datatype Kind = FILE | SWAP | MMAP

  /** `struct suppl_page_tbl_ent`. */
  datatype Spte = Spte(kind: Kind, writable: bool, loaded: bool, pinned: bool,
                       file: nat, offset: nat, readBytes: nat, zeroBytes: nat, swapIndex: nat)

  /** A present page-directory entry. */
  datatype Pte = Pte(frame: nat, writable: bool, accessed: bool, dirty: bool)

  /** `struct frame_tbl_ent`: the owning thread and its entry are named by the page. */
  datatype Fte = Fte(frame: nat, id: PageId)

  datatype State = State(
    spt: map<PageId, Spte>,        // all supplemental page tables
    pd: map<PageId, Pte>,          // all page directories
    table: seq<Fte>,               // frame_tbl_list
    free: set<nat>,                // free frames of the user pool
    ram: map<nat, Page>,           // contents of every user frame
    used: seq<bool>,               // swap_map
    disk: seq<Page>,               // swap slots
    files: map<nat, seq<byte>>)

  /** How a call that needs a frame can end: normally, in `PANIC`, or never (`evict_frame` keeps
      scanning a table in which every entry is pinned). */
  datatype Outcome = Done(st: State, ok: bool) | Panicked | Stuck

  // ---------------------------------------------------------------- invariants

  function Ids(table: seq<Fte>): set<PageId> {
    set i | 0 <= i < |table| :: table[i].id
  }

  function Frames(table: seq<Fte>): set<nat> {
    set i | 0 <= i < |table| :: table[i].frame
  }

  ghost predicate Differ(table: seq<Fte>, i: nat, j: nat) {
    i < j < |table| ==> table[i].id != table[j].id && table[i].frame != table[j].frame
  }

  ghost predicate Distinct(table: seq<Fte>) {
    forall i: nat, j: nat :: Differ(table, i, j)
  }

  /** A page is mapped exactly when its entry says it is loaded; only writable pages get dirty. */
  ghost predicate MappingOk(spt: map<PageId, Spte>, pd: map<PageId, Pte>) {
    && (forall id :: id in pd <==> id in spt && spt[id].loaded)
    && (forall id :: id in pd ==> pd[id].writable == spt[id].writable)
    && (forall id :: id in pd ==> (pd[id].dirty ==> pd[id].writable))
  }

  /** The frame table lists every mapped page once, with the frame it is mapped to. */
  ghost predicate TableOk(pd: map<PageId, Pte>, table: seq<Fte>) {
    && Distinct(table)
    && Ids(table) == pd.Keys
    && (forall i :: 0 <= i < |table| ==> table[i].id in pd && pd[table[i].id].frame == table[i].frame)
  }

  /** Every user frame is either free or in the frame table, never both. */
  ghost predicate FramesOk(table: seq<Fte>, free: set<nat>, ram: map<nat, Page>) {
    && Frames(table) !! free
    && Frames(table) + free == ram.Keys
  }

  predicate SwappedOut(e: Spte) {
    e.kind == SWAP && !e.loaded
  }

  ghost predicate OwnSlots(spt: map<PageId, Spte>, a: PageId, b: PageId) {
    a in spt && b in spt && a != b && SwappedOut(spt[a]) && SwappedOut(spt[b]) ==>
      spt[a].swapIndex != spt[b].swapIndex
  }

  /** Swapped-out pages own distinct in-use slots; a page that went to swap is writable. */
  ghost predicate SwapOk(spt: map<PageId, Spte>, used: seq<bool>, disk: seq<Page>) {
    && |used| == |disk|
    && (forall id :: id in spt && SwappedOut(spt[id]) ==> spt[id].swapIndex < |used| && used[spt[id].swapIndex])
    && (forall a, b :: OwnSlots(spt, a, b))
    && (forall id :: id in spt && spt[id].kind == SWAP ==> spt[id].writable)
  }

  /** Can the bytes of an entry be read from its file? */
  predicate Fits(files: map<nat, seq<byte>>, e: Spte) {
    e.readBytes == 0 || (e.file in files && e.offset + e.readBytes <= |files[e.file]|)
  }

  ghost predicate EntriesOk(spt: map<PageId, Spte>, files: map<nat, seq<byte>>) {
    && (forall id :: id in spt && spt[id].kind != SWAP ==> spt[id].readBytes + spt[id].zeroBytes == PGSIZE)
    && (forall id :: id in spt && spt[id].kind == MMAP ==> spt[id].writable && Fits(files, spt[id]))
  }

  /** The structural invariant: what the code itself relies on. */
  ghost predicate Valid(st: State) {
    && MappingOk(st.spt, st.pd)
    && TableOk(st.pd, st.table)
    && FramesOk(st.table, st.free, st.ram)
    && SwapOk(st.spt, st.used, st.disk)
    && EntriesOk(st.spt, st.files)
  }

  /** What an unloaded FILE or MMAP entry stands for. */
  function FileBytes(files: map<nat, seq<byte>>, e: Spte): Page {
    if e.readBytes <= PGSIZE && e.readBytes != 0 && Fits(files, e) then
      files[e.file][e.offset..e.offset + e.readBytes] + Zeros(PGSIZE - e.readBytes)
    else Zeros(PGSIZE)
  }

  /** A page that was not written since it was filled still equals its file. */
  ghost predicate CleanOk(spt: map<PageId, Spte>, pd: map<PageId, Pte>, ram: map<nat, Page>, files: map<nat, seq<byte>>) {
    forall id :: id in pd && id in spt && spt[id].kind != SWAP && !pd[id].dirty ==>
      pd[id].frame in ram && ram[pd[id].frame] == FileBytes(files, spt[id])
  }

  /** The byte ranges two entries take from their files do not meet. */
  predicate Apart(a: Spte, b: Spte) {
    a.file != b.file || a.offset + a.readBytes <= b.offset || b.offset + b.readBytes <= a.offset
    || a.readBytes == 0 || b.readBytes == 0
  }

  ghost predicate OwnBytes(spt: map<PageId, Spte>, a: PageId, b: PageId) {
    a in spt && b in spt && a != b && spt[a].kind == MMAP && spt[b].kind != SWAP ==> Apart(spt[a], spt[b])
  }

  /** A mapped range changes only through its mapping: no other entry is backed by it. */
  ghost predicate SharingOk(spt: map<PageId, Spte>) {
    forall a, b :: OwnBytes(spt, a, b)
  }

  ghost predicate Inv(st: State) {
    && Valid(st)
    && CleanOk(st.spt, st.pd, st.ram, st.files)
    && SharingOk(st.spt)
  }


  // ---------------------------------------------------------------- the flat memory the pages stand for

  /** The bytes of a page, wherever they are. */
  function Contents(st: State, id: PageId): Page
    requires Valid(st) && id in st.spt
  {
    var e := st.spt[id];
    if e.loaded then Located(st, id)
    else if e.kind == SWAP then st.disk[e.swapIndex]
    else FileBytes(st.files, e)
  }

  /** The frame contents of a mapped page. */
  function Located(st: State, id: PageId): Page
    requires Valid(st) && id in st.pd
  {
    MappedFrameInRam(st, id);
    st.ram[st.pd[id].frame]
  }

  /** How many bytes of a page are kept: the tail of a mapped file's last page is not. */
  function Kept(e: Spte): nat {
    if e.kind == MMAP then e.readBytes else PGSIZE
  }

  function View(st: State, id: PageId): seq<byte>
    requires Valid(st) && id in st.spt
  {
    Contents(st, id)[..Kept(st.spt[id])]
  }

  /** The flat memory: what every page of every process reads as. */
  function Flat(st: State): map<PageId, seq<byte>>
    requires Valid(st)
  {
    map id | id in st.spt :: View(st, id)
  }

  lemma MappedFrameInRam(st: State, id: PageId)
    requires Valid(st) && id in st.pd
    ensures st.pd[id].frame in st.ram
    ensures st.pd[id].frame !in st.free
  {
    assert id in Ids(st.table);
    var i :| 0 <= i < |st.table| && st.table[i].id == id;
    assert st.table[i].frame in Frames(st.table);
  }

  // ---------------------------------------------------------------- choosing a victim: frame.c, evict_frame

  predicate Unpinned(st: State, i: nat)
    requires Valid(st) && i < |st.table|
  {
    !st.spt[st.table[i].id].pinned
  }

  predicate Accessed(st: State, i: nat)
    requires Valid(st) && i < |st.table|
  {
    st.pd[st.table[i].id].accessed
  }

  /** The first entry from `i` on that is unpinned and, if `idle`, not accessed; or the length. */
  function Search(st: State, i: nat, idle: bool): (v: nat)
    requires Valid(st) && i <= |st.table|
    ensures i <= v <= |st.table|
    ensures v < |st.table| ==> Unpinned(st, v) && (idle ==> !Accessed(st, v))
    ensures forall j :: i <= j < v ==> !Unpinned(st, j) || (idle && Accessed(st, j))
    decreases |st.table| - i
  {
    if i == |st.table| then i
    else if Unpinned(st, i) && (idle ==> !Accessed(st, i)) then i
    else Search(st, i + 1, idle)
  }

  predicate Evictable(st: State)
    requires Valid(st)
  {
    Search(st, 0, false) < |st.table|
  }

  /** The first unpinned entry that was not accessed, else the first unpinned one. */
  function Victim(st: State): (v: nat)
    requires Valid(st) && Evictable(st)
    ensures v < |st.table| && Unpinned(st, v)
  {
    var idle := Search(st, 0, true);
    if idle < |st.table| then idle else Search(st, 0, false)
  }

  /** The page directories after the hand cleared the accessed bits of the unpinned entries before `k`. */
  function Swept(st: State, k: nat): map<PageId, Pte>
    requires Valid(st) && k <= |st.table|
  {
    map id | id in st.pd ::
      if id in Ids(st.table[..k]) && !st.spt[id].pinned then st.pd[id].(accessed := false) else st.pd[id]
  }

  /** The state in which `evict_frame` stops scanning. */
  function Scanned(st: State): State
    requires Valid(st) && Evictable(st)
  {
    st.(pd := Swept(st, Search(st, 0, true)))
  }

  // ---------------------------------------------------------------- writing a victim back

  /** `bitmap_scan_and_flip`: the first free slot, or the length. */
  function FreeSlot(used: seq<bool>): (s: nat)
    ensures s <= |used|
    ensures s < |used| ==> !used[s]
    ensures forall i :: 0 <= i < s ==> used[i]
  {
    if |used| == 0 || !used[0] then 0 else 1 + FreeSlot(used[1..])
  }

  /** `file_write_at`: overwrites existing bytes, never extends the file. */
  function WriteAt(before: seq<byte>, data: seq<byte>, offset: nat): (after: seq<byte>)
    ensures |after| == |before|
    ensures forall i :: 0 <= i < |before| ==>
      after[i] == if offset <= i < offset + |data| then data[i - offset] else before[i]
  {
    if offset >= |before| then before
    else
      var n := if offset + |data| <= |before| then |data| else |before| - offset;
      before[..offset] + data[..n] + before[offset + n..]
  }

  predicate NeedsWriting(st: State, id: PageId)
    requires Valid(st) && id in st.pd
  {
    st.pd[id].dirty || st.spt[id].kind == SWAP
  }

  /** Does evicting this page panic because swap is full? */
  predicate SwapFullFor(st: State, id: PageId)
    requires Valid(st) && id in st.pd
  {
    NeedsWriting(st, id) && st.spt[id].kind != MMAP && FreeSlot(st.used) == |st.used|
  }

  /** The page's bytes saved to its file or to swap, if they must be. */
  function WrittenBack(st: State, id: PageId): State
    requires Valid(st) && id in st.pd && !SwapFullFor(st, id)
  {
    var e := st.spt[id];
    if !NeedsWriting(st, id) then st
    else if e.kind == MMAP then SavedToFile(st, id)
    else
      var s := FreeSlot(st.used);
      st.(spt := st.spt[id := e.(kind := SWAP, swapIndex := s)],
          used := st.used[s := true], disk := st.disk[s := Located(st, id)])
  }

  /** The first `read_bytes` bytes of a mapped page written at its place in the file. */
  function SavedToFile(st: State, id: PageId): State
    requires Valid(st) && id in st.pd && st.spt[id].kind == MMAP
  {
    var e := st.spt[id];
    if e.file !in st.files then st
    else st.(files := st.files[e.file := WriteAt(st.files[e.file], Located(st, id)[..e.readBytes], e.offset)])
  }

  function RemoveAt(table: seq<Fte>, i: nat): seq<Fte>
    requires i < |table|
  {
    table[..i] + table[i + 1..]
  }

  /** `free_frame` of entry `v` followed by clearing its mapping. */
  function Released(st: State, v: nat): State
    requires v < |st.table| && st.table[v].id in st.spt
  {
    var id := st.table[v].id;
    st.(spt := st.spt[id := st.spt[id].(loaded := false)],
        pd := st.pd - {id},
        table := RemoveAt(st.table, v),
        free := st.free + {st.table[v].frame})
  }

  /** All of `evict_frame` but its final `palloc_get_page`. */
  function Evicted(st: State): State
    requires Valid(st) && Evictable(st)
    requires !SwapFullFor(st, st.table[Victim(st)].id)
  {
    var v := Victim(st);
    ScannedValid(st);
    Released(WrittenBack(Scanned(st), st.table[v].id), v)
  }

  lemma ScannedValid(st: State)
    requires Valid(st) && Evictable(st)
    ensures Valid(Scanned(st))
  {
    var s := Scanned(st);
    assert s.pd.Keys == st.pd.Keys;
    assert TableOk(s.pd, s.table);
  }

  /** `frame_alloc` up to the point where a free frame is there to take. */
  function Room(st: State): Outcome
    requires Valid(st)
  {
    if st.free != {} then Done(st, true)
    else if !Evictable(st) then Stuck
    else if SwapFullFor(st, st.table[Victim(st)].id) then Panicked
    else Done(Evicted(st), true)
  }

  // ---------------------------------------------------------------- loading: page.c

  /** `add_frame_to_tbl` and `install_page` for a page whose entry is about to be marked loaded. */
  function Installed(st: State, id: PageId, f: nat, contents: Page, touched: bool): State
    requires id in st.spt
  {
    st.(spt := st.spt[id := st.spt[id].(loaded := true)],
        pd := st.pd[id := Pte(f, st.spt[id].writable, touched, touched)],
        table := st.table + [Fte(f, id)],
        free := st.free - {f},
        ram := st.ram[f := contents])
  }

  /** A short `file_read_at`: the bytes that exist, over whatever the frame held. */
  function ShortCopy(files: map<nat, seq<byte>>, file: nat, offset: nat, frame: Page): Page {
    if file in files && offset < |files[file]| && |files[file]| - offset <= PGSIZE then
      files[file][offset..] + frame[|files[file]| - offset..]
    else frame
  }

  /** `load_swap` (page.c:167): the copy goes through the user address, which sets the page's
      accessed and dirty bits, and it gives the slot back. */
  function LoadSwap(st: State, id: PageId, f: nat, installs: bool): Outcome
    requires id in st.spt
  {
    var e := st.spt[id];
    if !installs then Done(st, false)
    else if e.swapIndex >= |st.used| || e.swapIndex >= |st.disk| || !st.used[e.swapIndex] then Panicked
    else Done(Installed(st, id, f, st.disk[e.swapIndex], true).(used := st.used[e.swapIndex := false]), true)
  }

  /** `load_file` (page.c:194), once `frame_alloc` returned frame `f`. */
  function LoadFile(st: State, id: PageId, f: nat, installs: bool): Outcome
    requires id in st.spt && f in st.ram
  {
    var e := st.spt[id];
    if !Fits(st.files, e) then Done(st.(ram := st.ram[f := ShortCopy(st.files, e.file, e.offset, st.ram[f])]), false)
    else if !installs then Done(st.(ram := st.ram[f := FileBytes(st.files, e)]), false)
    else Done(Installed(st, id, f, FileBytes(st.files, e), false), true)
  }

  /** Frame `f` is the one `palloc_get_page` hands out after making room. */
  predicate Grants(st: State, f: nat)
    requires Valid(st)
  {
    var room := Room(st);
    room.Done? ==> f in room.st.free && f in room.st.ram
  }

  function SetPinned(st: State, id: PageId, pinned: bool): State
    requires id in st.spt
  {
    st.(spt := st.spt[id := st.spt[id].(pinned := pinned)])
  }

  lemma SetPinnedValid(st: State, id: PageId, pinned: bool)
    requires Valid(st) && id in st.spt
    ensures Valid(SetPinned(st, id, pinned))
  {
    forall a, b ensures OwnSlots(SetPinned(st, id, pinned).spt, a, b) {
      assert OwnSlots(st.spt, a, b);
    }
  }

  /** Frame `f` is the one granted to `load_page`, which first pins its page. */
  predicate GrantsFor(st: State, id: PageId, f: nat)
    requires Valid(st) && id in st.spt
  {
    SetPinnedValid(st, id, true);
    Grants(SetPinned(st, id, true), f)
  }

  lemma RoomKeepsEntry(st: State, id: PageId)
    requires Valid(st) && id in st.spt && Room(st).Done?
    ensures id in Room(st).st.spt
  {
  }

  /** `load_swap` or `load_file` from their call to `frame_alloc` on. */
  function BroughtIn(st: State, id: PageId, f: nat, installs: bool): Outcome
    requires Valid(st) && id in st.spt && Grants(st, f)
  {
    var room := Room(st);
    if !room.Done? then room
    else
      RoomKeepsEntry(st, id);
      if st.spt[id].kind == SWAP then LoadSwap(room.st, id, f, installs) else LoadFile(room.st, id, f, installs)
  }

  /** `load_page` (page.c:137). `f` is the frame granted if one is needed, `installs` whether
      `pagedir_set_page` finds memory. */
  function LoadPage(st: State, id: PageId, f: nat, installs: bool): Outcome
    requires Valid(st) && id in st.spt && GrantsFor(st, id, f)
  {
    SetPinnedValid(st, id, true);
    var pinned := SetPinned(st, id, true);
    if st.spt[id].loaded then Done(pinned, false) else BroughtIn(pinned, id, f, installs)
  }

  const MAX_STACK_SIZE: nat := 0x80_0000

  predicate StackMayReach(upage: word) {
    PHYS_BASE - upage <= MAX_STACK_SIZE
  }

  /** Frame `f` is in the table and mapped at the page, of which the page's own entry knows nothing. */
  function MappedOnly(st: State, id: PageId, f: nat): State {
    st.(pd := st.pd[id := Pte(f, true, false, false)], table := st.table + [Fte(f, id)], free := st.free - {f})
  }

  /** Will `stack_growth` map a frame at a page that has an entry? The page is not mapped, or is about to
      be the victim that makes room. */
  predicate Collides(st: State, id: PageId, installs: bool)
    requires Valid(st)
  {
    && StackMayReach(id.upage) && installs && id in st.spt
    && (id in st.pd ==> st.free == {} && Evictable(st) && st.table[Victim(st)].id == id)
  }

  /** `stack_growth` (page.c:308). The frame is not cleared and the new entry stays pinned. That the page
      has an entry already is found out last, when `hash_insert` refuses the new one: nothing is undone. */
  function GrowStack(st: State, id: PageId, f: nat, installs: bool): Outcome
    requires Valid(st) && Grants(st, f)
  {
    if !StackMayReach(id.upage) then Done(st, false)
    else
      var room := Room(st);
      if !room.Done? then room
      else if !installs || id in room.st.pd then Done(room.st, false)
      else if id in room.st.spt then Done(MappedOnly(room.st, id, f), false)
      else
        var entry := Spte(SWAP, true, true, true, 0, 0, 0, 0, 0);
        Done(Installed(room.st.(spt := room.st.spt[id := entry]), id, f, room.st.ram[f], false), true)
  }

  // ---------------------------------------------------------------- giving pages back

  /** One round of the loop in `process_remove_mmap` (process.c:660-675) for a live entry. */
  function Unmapped(st: State, id: PageId): State
    requires Valid(st) && id in st.spt && st.spt[id].kind == MMAP
  {
    if id !in st.pd then st.(spt := st.spt - {id})
    else
      var saved := if st.pd[id].dirty then SavedToFile(st, id) else st;
      Dropped(saved, id)
  }

  /** A mapped page loses its frame, its mapping and its entry. */
  function Dropped(st: State, id: PageId): State
    requires MappingOk(st.spt, st.pd) && TableOk(st.pd, st.table) && id in st.pd
  {
    var v := IndexOf(st.table, id);
    var st' := Released(st, v);
    st'.(spt := st'.spt - {id})
  }

  /** `page_function` (page.c:70): tear one entry down without saving anything. */
  function Discarded(st: State, id: PageId): State
    requires Valid(st) && id in st.spt
  {
    if id in st.pd then Dropped(st, id) else st.(spt := st.spt - {id})
  }

  /** Where a page stands in the frame table. */
  function IndexOf(table: seq<Fte>, id: PageId): (i: nat)
    requires id in Ids(table)
    ensures i < |table| && table[i].id == id
  {
    if table[0].id == id then 0
    else
      assert forall k :: 0 <= k < |table| && table[k].id == id ==> k >= 1 && table[1..][k - 1].id == id;
      1 + IndexOf(table[1..], id)
  }
}
