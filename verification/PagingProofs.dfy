/** Every paging operation keeps the invariant and the flat memory. */
module PagingProofs {
  import opened Machine
  import opened PagingSpec

  /** Same pages, same bytes in each of them. */
  ghost predicate SameMemory(a: State, b: State)
    requires Valid(a) && Valid(b)
  {
    && a.spt.Keys == b.spt.Keys
    && forall id :: id in a.spt ==> View(a, id) == View(b, id)
  }

  /** What no paging operation inside `load_page` changes: the pages that exist, what they are
      backed by, the number of frames and slots, and the files' names and lengths. */
  ghost predicate SameShape(a: State, b: State) {
    && a.spt.Keys == b.spt.Keys
    && (forall id :: id in a.spt ==> SameOrigin(a.spt[id], b.spt[id]))
    && a.ram.Keys == b.ram.Keys
    && |a.used| == |b.used|
    && a.files.Keys == b.files.Keys
    && (forall f :: f in a.files ==> |a.files[f]| == |b.files[f]|)
  }

  ghost predicate SameOrigin(a: Spte, b: Spte) {
    && a.file == b.file && a.offset == b.offset && a.readBytes == b.readBytes && a.zeroBytes == b.zeroBytes
    && a.writable == b.writable
    && (a.kind == b.kind || (a.kind == FILE && b.kind == SWAP))
  }

  /** Slots stay distinct when no page is newly swapped out. */
  lemma SlotsKept(a: map<PageId, Spte>, b: map<PageId, Spte>)
    requires forall x, y :: OwnSlots(a, x, y)
    requires forall id :: id in b && SwappedOut(b[id]) ==> id in a && SwappedOut(a[id]) && a[id].swapIndex == b[id].swapIndex
    ensures forall x, y :: OwnSlots(b, x, y)
  {
    forall x, y ensures OwnSlots(b, x, y) {
      assert OwnSlots(a, x, y);
    }
  }

  /** Mapped ranges stay private when no entry gains a file range. */
  lemma RangesKept(a: map<PageId, Spte>, b: map<PageId, Spte>)
    requires SharingOk(a)
    requires forall id :: id in b && b[id].kind != SWAP ==> id in a && SameOrigin(a[id], b[id])
    ensures SharingOk(b)
  {
    forall x, y ensures OwnBytes(b, x, y) {
      assert OwnBytes(a, x, y);
    }
  }

  /** An entry that changed at most in being loaded or pinned, or is new and in memory only. */
  ghost predicate Tame(a: map<PageId, Spte>, id: PageId, e: Spte) {
    if id in a then SameOrigin(a[id], e) && a[id].kind == e.kind && (SwappedOut(e) ==> SwappedOut(a[id]) && a[id].swapIndex == e.swapIndex)
    else e.kind == SWAP && e.loaded && e.writable
  }

  lemma EntriesKept(a: map<PageId, Spte>, b: map<PageId, Spte>, used: seq<bool>, disk: seq<Page>, files: map<nat, seq<byte>>)
    requires SwapOk(a, used, disk) && EntriesOk(a, files) && SharingOk(a)
    requires forall id :: id in b ==> Tame(a, id, b[id])
    ensures SwapOk(b, used, disk) && EntriesOk(b, files) && SharingOk(b)
  {
    SlotsKept(a, b);
    RangesKept(a, b);
  }

  // ---------------------------------------------------------------- frame table lemmas

  lemma RemoveFromTable(table: seq<Fte>, v: nat)
    requires v < |table| && Distinct(table)
    ensures Distinct(RemoveAt(table, v))
    ensures Ids(RemoveAt(table, v)) == Ids(table) - {table[v].id}
    ensures Frames(RemoveAt(table, v)) == Frames(table) - {table[v].frame}
  {
    var t := RemoveAt(table, v);
    forall i | 0 <= i < |t| ensures t[i] == table[if i < v then i else i + 1] {}
    forall i: nat, j: nat ensures Differ(t, i, j) {
      assert Differ(table, if i < v then i else i + 1, if j < v then j else j + 1);
    }
    forall i | 0 <= i < |t| ensures t[i].id in Ids(table) - {table[v].id} && t[i].frame in Frames(table) - {table[v].frame} {
      assert Differ(table, i, v) && Differ(table, v, i + 1);
    }
    forall id | id in Ids(table) && id != table[v].id ensures id in Ids(t) {
      var i :| 0 <= i < |table| && table[i].id == id;
      assert t[if i < v then i else i - 1].id == id;
    }
    forall f | f in Frames(table) && f != table[v].frame ensures f in Frames(t) {
      var i :| 0 <= i < |table| && table[i].frame == f;
      assert t[if i < v then i else i - 1].frame == f;
    }
  }

  lemma AppendToTable(table: seq<Fte>, e: Fte)
    requires Distinct(table) && e.id !in Ids(table) && e.frame !in Frames(table)
    ensures Distinct(table + [e])
    ensures Ids(table + [e]) == Ids(table) + {e.id}
    ensures Frames(table + [e]) == Frames(table) + {e.frame}
  {
    var t := table + [e];
    forall i: nat, j: nat ensures Differ(t, i, j) {
      assert Differ(table, i, j);
      if i < |table| {
        assert table[i].id in Ids(table) && table[i].frame in Frames(table);
      }
    }
    assert t[|table|] == e;
    forall id | id in Ids(table) ensures id in Ids(t) {
      var i :| 0 <= i < |table| && table[i].id == id;
      assert t[i].id == id;
    }
    forall f | f in Frames(table) ensures f in Frames(t) {
      var i :| 0 <= i < |table| && table[i].frame == f;
      assert t[i].frame == f;
    }
  }

  lemma TableEntryRemoved(pd: map<PageId, Pte>, table: seq<Fte>, free: set<nat>, ram: map<nat, Page>, v: nat)
    requires TableOk(pd, table) && FramesOk(table, free, ram) && v < |table|
    ensures TableOk(pd - {table[v].id}, RemoveAt(table, v))
    ensures FramesOk(RemoveAt(table, v), free + {table[v].frame}, ram)
  {
    var id, t := table[v].id, RemoveAt(table, v);
    RemoveFromTable(table, v);
    assert (pd - {id}).Keys == pd.Keys - {id};
    forall i | 0 <= i < |t| ensures t[i].id in pd - {id} && pd[t[i].id].frame == t[i].frame {
      assert t[i].id in Ids(t);
      assert t[i] == table[if i < v then i else i + 1];
    }
    assert table[v].frame in Frames(table);
  }

  lemma TableEntryAdded(pd: map<PageId, Pte>, table: seq<Fte>, free: set<nat>, ram: map<nat, Page>,
                        id: PageId, pte: Pte, contents: Page)
    requires TableOk(pd, table) && FramesOk(table, free, ram) && id !in pd && pte.frame in free
    ensures TableOk(pd[id := pte], table + [Fte(pte.frame, id)])
    ensures FramesOk(table + [Fte(pte.frame, id)], free - {pte.frame}, ram[pte.frame := contents])
  {
    var t := table + [Fte(pte.frame, id)];
    AppendToTable(table, Fte(pte.frame, id));
    forall i | 0 <= i < |table| ensures t[i].id in pd && pd[t[i].id].frame == t[i].frame && t[i].id != id {
      assert t[i].id in Ids(table);
    }
  }

  /** Free frames and frame-table entries together are all the user frames, each counted once. */
  lemma Conservation(st: State)
    requires Valid(st)
    ensures |st.free| + |st.table| == |st.ram|
    ensures |st.pd| == |st.table|
  {
    CountTable(st.table);
    assert |st.ram.Keys| == |Frames(st.table)| + |st.free|;
    assert |st.pd.Keys| == |Ids(st.table)|;
  }

  lemma {:induction false} CountTable(table: seq<Fte>)
    requires Distinct(table)
    ensures |Frames(table)| == |table| && |Ids(table)| == |table|
  {
    if table != [] {
      var n := |table| - 1;
      forall i: nat, j: nat ensures Differ(table[..n], i, j) {
        assert Differ(table, i, j);
      }
      CountTable(table[..n]);
      assert table == table[..n] + [table[n]];
      forall i | 0 <= i < n ensures table[..n][i].id != table[n].id && table[..n][i].frame != table[n].frame {
        assert Differ(table, i, n);
      }
      AppendToTable(table[..n], table[n]);
    }
  }

  // ---------------------------------------------------------------- what a page's bytes depend on

  /** A page reads the same in two states if its entry did not change and neither did its place. */
  ghost predicate SamePlace(a: State, b: State, id: PageId)
    requires Valid(a) && Valid(b) && id in a.spt && id in b.spt
  {
    var x, y := a.spt[id], b.spt[id];
    && Kept(x) == Kept(y) && x.loaded == y.loaded
    && (x.loaded ==> Located(a, id) == Located(b, id))
    && (!x.loaded && x.kind == SWAP ==> y.kind == SWAP && a.disk[x.swapIndex] == b.disk[y.swapIndex])
    && (!x.loaded && x.kind != SWAP ==> y.kind != SWAP && FileBytes(a.files, x) == FileBytes(b.files, y))
  }

  lemma SamePlaceSameView(a: State, b: State, id: PageId)
    requires Valid(a) && Valid(b) && id in a.spt && id in b.spt && SamePlace(a, b, id)
    ensures View(a, id) == View(b, id)
  {
  }

  lemma LoadedView(st: State, id: PageId)
    requires Valid(st) && id in st.pd
    ensures id in st.spt && View(st, id) == Located(st, id)[..Kept(st.spt[id])]
  {
    hide FileBytes;
  }

  lemma SameFileBytes(files: map<nat, seq<byte>>, a: Spte, b: Spte)
    requires SameOrigin(a, b)
    ensures FileBytes(files, a) == FileBytes(files, b)
  {
  }

  // ---------------------------------------------------------------- eviction

  lemma ScannedInv(st: State)
    requires Inv(st) && Evictable(st)
    ensures Inv(Scanned(st)) && SameMemory(st, Scanned(st)) && SameShape(st, Scanned(st))
  {
    hide View, Contents, FileBytes, TableOk, FramesOk, SwapOk, EntriesOk;
    var s := Scanned(st);
    ScannedValid(st);
    forall b | b in st.spt ensures View(st, b) == View(s, b) {
      SamePlaceSameView(st, s, b);
    }
  }

  /** Unloading the page now would lose none of the bytes it must keep. */
  ghost predicate Saved(st: State, id: PageId)
    requires Valid(st) && id in st.pd
  {
    var e := st.spt[id];
    if e.kind == SWAP then
      && e.swapIndex < |st.used| && st.used[e.swapIndex] && st.disk[e.swapIndex] == Located(st, id)
      && forall b :: b in st.spt && b != id && SwappedOut(st.spt[b]) ==> st.spt[b].swapIndex != e.swapIndex
    else
      FileBytes(st.files, e)[..Kept(e)] == Located(st, id)[..Kept(e)]
  }

  /** Writing one mapped page to its file leaves every other entry's file bytes alone. */
  lemma SavedToFileBytes(st: State, id: PageId, b: PageId)
    requires Valid(st) && SharingOk(st.spt) && id in st.pd && st.spt[id].kind == MMAP
    requires b in st.spt && b != id && st.spt[b].kind != SWAP
    ensures FileBytes(SavedToFile(st, id).files, st.spt[b]) == FileBytes(st.files, st.spt[b])
  {
    var e := st.spt[id];
    assert OwnBytes(st.spt, id, b);
    if e.file in st.files {
      ApartKeepsBytes(st.files, SavedToFile(st, id).files, e, st.spt[b], Located(st, id)[..e.readBytes]);
    }
  }

  lemma ApartKeepsBytes(before: map<nat, seq<byte>>, after: map<nat, seq<byte>>, e: Spte, b: Spte, data: seq<byte>)
    requires e.file in before && |data| == e.readBytes && Apart(e, b)
    requires after == before[e.file := WriteAt(before[e.file], data, e.offset)]
    ensures FileBytes(after, b) == FileBytes(before, b)
  {
    if b.readBytes <= PGSIZE && b.readBytes != 0 && Fits(before, b) {
      assert after[b.file][b.offset..b.offset + b.readBytes] == before[b.file][b.offset..b.offset + b.readBytes];
    }
  }

  lemma SavedToFileOwnBytes(st: State, id: PageId)
    requires Valid(st) && id in st.pd && st.spt[id].kind == MMAP
    ensures FileBytes(SavedToFile(st, id).files, st.spt[id])[..st.spt[id].readBytes] == Located(st, id)[..st.spt[id].readBytes]
  {
    hide TableOk, FramesOk, SwapOk;
    var e, s := st.spt[id], SavedToFile(st, id);
    if e.readBytes > 0 {
      assert s.files[e.file][e.offset..e.offset + e.readBytes] == Located(st, id)[..e.readBytes];
    }
  }

  lemma SavedToFileValid(st: State, id: PageId)
    requires Valid(st) && id in st.pd && st.spt[id].kind == MMAP
    ensures Valid(SavedToFile(st, id)) && SameShape(st, SavedToFile(st, id))
  {
    hide TableOk, FramesOk, MappingOk, SwapOk, FileBytes;
  }

  /** A dirty mapped page may be saved at any time. */
  lemma SavedToFileInv(st: State, id: PageId)
    requires Inv(st) && id in st.pd && st.spt[id].kind == MMAP && st.pd[id].dirty
    ensures var s := SavedToFile(st, id); Inv(s) && SameMemory(st, s) && SameShape(st, s) && Saved(s, id)
  {
    hide TableOk, FramesOk, SwapOk, FileBytes;
    var s := SavedToFile(st, id);
    SavedToFileValid(st, id);
    SavedToFileOwnBytes(st, id);
    forall b | b in st.spt && b != id && st.spt[b].kind != SWAP
      ensures FileBytes(s.files, s.spt[b]) == FileBytes(st.files, st.spt[b])
    {
      SavedToFileBytes(st, id, b);
    }
    forall b | b in st.spt ensures View(st, b) == View(s, b) {
      SamePlaceSameView(st, s, b);
    }
  }

  lemma SavedToSwapSlots(st: State, id: PageId)
    requires Inv(st) && id in st.pd && NeedsWriting(st, id) && st.spt[id].kind != MMAP && !SwapFullFor(st, id)
    ensures var s := WrittenBack(st, id); SwapOk(s.spt, s.used, s.disk)
  {
    hide TableOk, FramesOk, FileBytes, CleanOk, SharingOk, EntriesOk;
    var s := WrittenBack(st, id);
    assert st.pd[id].writable;
    SlotsKept(st.spt, s.spt);
  }

  lemma SavedToSwapEntries(st: State, id: PageId)
    requires Inv(st) && id in st.pd && NeedsWriting(st, id) && st.spt[id].kind != MMAP && !SwapFullFor(st, id)
    ensures var s := WrittenBack(st, id);
      MappingOk(s.spt, s.pd) && EntriesOk(s.spt, s.files) && SharingOk(s.spt) && SameShape(st, s)
  {
    hide TableOk, FramesOk, FileBytes, CleanOk, SwapOk, SharingOk, Located;
    var s := WrittenBack(st, id);
    assert s.spt.Keys == st.spt.Keys && forall b :: b in st.spt ==> SameOrigin(st.spt[b], s.spt[b]);
    RangesKept(st.spt, s.spt);
  }

  lemma SavedToSwapValid(st: State, id: PageId)
    requires Inv(st) && id in st.pd && NeedsWriting(st, id) && st.spt[id].kind != MMAP && !SwapFullFor(st, id)
    ensures var s := WrittenBack(st, id); Valid(s) && SharingOk(s.spt) && SameShape(st, s)
  {
    SavedToSwapSlots(st, id);
    SavedToSwapEntries(st, id);
    hide TableOk, FramesOk, MappingOk, EntriesOk, SwapOk, SharingOk, CleanOk, FileBytes, SameShape, Located;
  }

  lemma SavedToSwapInv(st: State, id: PageId)
    requires Inv(st) && id in st.pd && NeedsWriting(st, id) && st.spt[id].kind != MMAP && !SwapFullFor(st, id)
    ensures var s := WrittenBack(st, id); Inv(s) && SameMemory(st, s) && SameShape(st, s) && Saved(s, id)
  {
    hide View, Contents, TableOk, FramesOk, FileBytes, EntriesOk, SharingOk;
    var s := WrittenBack(st, id);
    SavedToSwapValid(st, id);
    forall b | b in st.spt ensures View(st, b) == View(s, b) {
      SamePlaceSameView(st, s, b);
    }
  }

  lemma WrittenBackInv(st: State, id: PageId)
    requires Inv(st) && id in st.pd && !SwapFullFor(st, id)
    ensures var s := WrittenBack(st, id); Inv(s) && SameMemory(st, s) && SameShape(st, s) && Saved(s, id)
    ensures WrittenBack(st, id).pd == st.pd && WrittenBack(st, id).table == st.table
    ensures WrittenBack(st, id).free == st.free
    ensures forall b :: b in st.spt && b != id ==> WrittenBack(st, id).spt[b] == st.spt[b]
  {
    hide TableOk, FramesOk, SwapOk, EntriesOk, SharingOk, FileBytes;
    if NeedsWriting(st, id) {
      if st.spt[id].kind == MMAP {
        CleanUnlessDirty(st, id);
        SavedToFileInv(st, id);
      } else {
        SavedToSwapInv(st, id);
      }
    } else {
      CleanUnlessDirty(st, id);
    }
  }

  lemma CleanUnlessDirty(st: State, id: PageId)
    requires Inv(st) && id in st.pd && !(st.spt[id].kind == SWAP)
    ensures st.pd[id].dirty || FileBytes(st.files, st.spt[id]) == Located(st, id)
  {
    hide FileBytes;
  }

  /** A saved page can be dropped from memory. */
  lemma ReleasedInv(st: State, v: nat)
    requires Inv(st) && v < |st.table| && st.table[v].id in st.pd && Saved(st, st.table[v].id)
    ensures var s := Released(st, v); Inv(s) && SameMemory(st, s) && SameShape(st, s)
    ensures Released(st, v).free == st.free + {st.table[v].frame}
    ensures forall b :: b in st.spt && b != st.table[v].id ==> Released(st, v).spt[b] == st.spt[b]
  {
    var s := Released(st, v);
    var id := st.table[v].id;
    ReleasedValid(st, v);
    hide Valid, FileBytes;
    RangesKept(st.spt, s.spt);
    SameFileBytes(st.files, st.spt[id], s.spt[id]);
    forall b | b in st.spt && b != id ensures View(s, b) == View(st, b) {
      ReleasedSamePlace(st, v, b);
    }
    ReleasedClean(st, v);
    ReleasedSelf(st, v);
    hide View, CleanOk, SharingOk, SameShape, Saved;
  }

  lemma ReleasedSamePlace(st: State, v: nat, b: PageId)
    requires Valid(st) && v < |st.table| && st.table[v].id in st.pd && Saved(st, st.table[v].id)
    requires Valid(Released(st, v)) && b in st.spt && b != st.table[v].id
    ensures View(Released(st, v), b) == View(st, b)
  {
    hide FileBytes, TableOk, FramesOk, EntriesOk, SwapOk;
    SamePlaceSameView(st, Released(st, v), b);
  }

  lemma ReleasedClean(st: State, v: nat)
    requires CleanOk(st.spt, st.pd, st.ram, st.files) && v < |st.table| && st.table[v].id in st.spt
    ensures var s := Released(st, v); CleanOk(s.spt, s.pd, s.ram, s.files)
  {
    hide FileBytes;
  }

  /** The page that lost its frame reads from where it was saved. */
  lemma ReleasedSelf(st: State, v: nat)
    requires Valid(st) && v < |st.table| && st.table[v].id in st.pd && Saved(st, st.table[v].id)
    requires Valid(Released(st, v))
    ensures View(Released(st, v), st.table[v].id) == View(st, st.table[v].id)
  {
    var s := Released(st, v);
    var id := st.table[v].id;
    SameFileBytes(st.files, st.spt[id], s.spt[id]);
    hide FileBytes, TableOk, FramesOk, EntriesOk;
  }

  lemma ReleasedEntries(st: State, v: nat)
    requires Valid(st) && v < |st.table| && st.table[v].id in st.pd && Saved(st, st.table[v].id)
    ensures var s := Released(st, v); MappingOk(s.spt, s.pd) && EntriesOk(s.spt, s.files) && SameShape(st, s)
  {
    hide FileBytes, TableOk, FramesOk, SwapOk;
  }

  lemma ReleasedSlots(st: State, v: nat)
    requires Valid(st) && v < |st.table| && st.table[v].id in st.pd && Saved(st, st.table[v].id)
    ensures var s := Released(st, v); SwapOk(s.spt, s.used, s.disk)
  {
    hide FileBytes, TableOk, FramesOk, EntriesOk;
    var s := Released(st, v);
    forall a, b ensures OwnSlots(s.spt, a, b) {
      assert OwnSlots(st.spt, a, b);
    }
  }

  lemma ReleasedValid(st: State, v: nat)
    requires Valid(st) && v < |st.table| && st.table[v].id in st.pd && Saved(st, st.table[v].id)
    ensures Valid(Released(st, v)) && SameShape(st, Released(st, v))
  {
    TableEntryRemoved(st.pd, st.table, st.free, st.ram, v);
    ReleasedEntries(st, v);
    ReleasedSlots(st, v);
    hide FileBytes, TableOk, FramesOk, MappingOk, EntriesOk, SwapOk, SameShape, Saved;
  }

  lemma VictimMapped(st: State)
    requires Valid(st) && Evictable(st)
    ensures st.table[Victim(st)].id in st.pd
  {
  }

  /** Evicting a page changes no byte that any page reads as. */
  lemma EvictedInv(st: State)
    requires Inv(st) && Evictable(st) && st.table[Victim(st)].id in st.pd && !SwapFullFor(st, st.table[Victim(st)].id)
    ensures var s := Evicted(st); Inv(s) && SameMemory(st, s) && SameShape(st, s)
    ensures Evicted(st).free == st.free + {st.table[Victim(st)].frame}
    ensures forall b :: b in st.spt && b != st.table[Victim(st)].id ==> Evicted(st).spt[b] == st.spt[b]
  {
    hide TableOk, FramesOk, SwapOk, MappingOk, EntriesOk, SharingOk, CleanOk, FileBytes, View, Saved;
    var v := Victim(st);
    var id := st.table[v].id;
    ScannedInv(st);
    WrittenBackInv(Scanned(st), id);
    ReleasedInv(WrittenBack(Scanned(st), id), v);
  }

  lemma RoomInv(st: State)
    requires Inv(st) && Room(st).Done?
    ensures var s := Room(st).st; Inv(s) && SameMemory(st, s) && SameShape(st, s) && s.free != {}
    ensures forall id :: id in st.spt && (!st.spt[id].loaded || st.spt[id].pinned) ==> Room(st).st.spt[id] == st.spt[id]
    ensures Room(st).st.free <= Room(st).st.ram.Keys && Room(st).st.spt.Keys == st.spt.Keys
  {
    hide SwapOk, EntriesOk, SharingOk, CleanOk, FileBytes, View, Contents;
    if st.free == {} {
      VictimMapped(st);
      EvictedInv(st);
    }
    assert FramesOk(Room(st).st.table, Room(st).st.free, Room(st).st.ram);
  }

  // ---------------------------------------------------------------- loading

  lemma InstalledEntries(st: State, id: PageId, f: nat, contents: Page, touched: bool)
    requires Valid(st) && SharingOk(st.spt) && id in st.spt && !st.spt[id].loaded && f in st.free
    requires touched ==> st.spt[id].writable
    ensures var s := Installed(st, id, f, contents, touched);
      MappingOk(s.spt, s.pd) && SwapOk(s.spt, s.used, s.disk) && EntriesOk(s.spt, s.files) && SharingOk(s.spt)
  {
    hide FileBytes, TableOk, FramesOk, SwapOk, EntriesOk, SharingOk;
    var s := Installed(st, id, f, contents, touched);
    EntriesKept(st.spt, s.spt, st.used, st.disk, st.files);
  }

  lemma InstalledShape(st: State, id: PageId, f: nat, contents: Page, touched: bool)
    requires FramesOk(st.table, st.free, st.ram) && id in st.spt && f in st.free
    ensures SameShape(st, Installed(st, id, f, contents, touched))
  {
  }

  lemma InstalledValid(st: State, id: PageId, f: nat, contents: Page, touched: bool)
    requires Valid(st) && SharingOk(st.spt) && id in st.spt && !st.spt[id].loaded && f in st.free
    requires touched ==> st.spt[id].writable
    ensures var s := Installed(st, id, f, contents, touched); Valid(s) && SharingOk(s.spt) && SameShape(st, s)
  {
    TableEntryAdded(st.pd, st.table, st.free, st.ram, id, Pte(f, st.spt[id].writable, touched, touched), contents);
    InstalledEntries(st, id, f, contents, touched);
    InstalledShape(st, id, f, contents, touched);
    hide FileBytes, TableOk, FramesOk, MappingOk, SwapOk, EntriesOk, SharingOk, SameShape;
  }

  lemma FreeFramesExist(st: State, f: nat)
    requires Valid(st) && f in st.free
    ensures f in st.ram && f !in Frames(st.table)
    ensures forall b :: b in st.pd ==> st.pd[b].frame != f
  {
    forall b | b in st.pd ensures st.pd[b].frame != f {
      MappedFrameInRam(st, b);
    }
  }

  /** Mapping a free frame filled with the page's bytes changes no page. */
  lemma InstalledInv(st: State, id: PageId, f: nat, contents: Page, touched: bool)
    requires Inv(st) && id in st.spt && !st.spt[id].loaded && f in st.free
    requires contents[..Kept(st.spt[id])] == View(st, id)
    requires touched ==> st.spt[id].writable
    requires !touched && st.spt[id].kind != SWAP ==> contents == FileBytes(st.files, st.spt[id])
    ensures var s := Installed(st, id, f, contents, touched); Inv(s) && SameMemory(st, s) && SameShape(st, s)
  {
    hide View, Contents, FileBytes, TableOk, FramesOk, SwapOk, EntriesOk, SharingOk;
    var s := Installed(st, id, f, contents, touched);
    InstalledValid(st, id, f, contents, touched);
    FreeFramesExist(st, f);
    LoadedView(s, id);
    SameFileBytes(st.files, st.spt[id], s.spt[id]);
    forall b | b in st.spt && b != id ensures View(st, b) == View(s, b) {
      SamePlaceSameView(st, s, b);
    }
  }

  /** A slot that only one swapped-out page used is free once that page is loaded. */
  lemma SlotReturnedInv(st: State, slot: nat)
    requires Inv(st) && slot < |st.used|
    requires forall b :: b in st.spt && SwappedOut(st.spt[b]) ==> st.spt[b].swapIndex != slot
    ensures var s := st.(used := st.used[slot := false]); Inv(s) && SameMemory(st, s) && SameShape(st, s)
  {
    hide FileBytes, TableOk, FramesOk, EntriesOk, SharingOk;
    var s := st.(used := st.used[slot := false]);
    forall b | b in st.spt ensures View(st, b) == View(s, b) {
      SamePlaceSameView(st, s, b);
    }
  }

  lemma FreeFrameOverwrittenInv(st: State, f: nat, contents: Page)
    requires Inv(st) && f in st.free
    ensures var s := st.(ram := st.ram[f := contents]); Inv(s) && SameMemory(st, s) && SameShape(st, s)
  {
    hide FileBytes, TableOk, EntriesOk, SharingOk, SwapOk;
    var s := st.(ram := st.ram[f := contents]);
    FreeFramesExist(st, f);
    assert Valid(s);
    forall b | b in st.spt ensures View(st, b) == View(s, b) {
      SamePlaceSameView(st, s, b);
    }
  }

  lemma SetPinnedInv(st: State, id: PageId, pinned: bool)
    requires Inv(st) && id in st.spt
    ensures var s := SetPinned(st, id, pinned); Inv(s) && SameMemory(st, s) && SameShape(st, s)
  {
    hide View, Contents, FileBytes, TableOk, FramesOk, SwapOk, EntriesOk, SharingOk;
    var s := SetPinned(st, id, pinned);
    EntriesKept(st.spt, s.spt, st.used, st.disk, st.files);
    SameFileBytes(st.files, st.spt[id], s.spt[id]);
    forall b | b in st.spt ensures View(st, b) == View(s, b) {
      SamePlaceSameView(st, s, b);
    }
  }

  lemma SwappedOutSlot(st: State, id: PageId)
    requires Inv(st) && id in st.spt && SwappedOut(st.spt[id])
    ensures st.spt[id].swapIndex < |st.used| == |st.disk| && st.used[st.spt[id].swapIndex]
    ensures View(st, id) == st.disk[st.spt[id].swapIndex] && st.spt[id].writable
    ensures forall b :: b in st.spt && b != id && SwappedOut(st.spt[b]) ==> st.spt[b].swapIndex != st.spt[id].swapIndex
  {
    hide TableOk, FramesOk, FileBytes, CleanOk, SharingOk;
    forall b | b in st.spt && b != id && SwappedOut(st.spt[b]) ensures st.spt[b].swapIndex != st.spt[id].swapIndex {
      assert OwnSlots(st.spt, id, b);
    }
  }

  /** `swap_in` never meets a free slot. */
  lemma LoadSwapInv(st: State, id: PageId, f: nat, installs: bool)
    requires Inv(st) && id in st.spt && SwappedOut(st.spt[id]) && f in st.free
    ensures var out := LoadSwap(st, id, f, installs);
      out.Done? && out.ok == installs && Inv(out.st) && SameMemory(st, out.st) && SameShape(st, out.st)
    ensures var s := LoadSwap(st, id, f, installs).st;
      (forall b :: b in st.spt && b != id ==> s.spt[b] == st.spt[b]) && s.spt[id] == st.spt[id].(loaded := installs)
  {
    hide TableOk, FramesOk, SwapOk, MappingOk, EntriesOk, SharingOk, CleanOk, FileBytes, View;
    SwappedOutSlot(st, id);
    if installs {
      var e := st.spt[id];
      var contents := st.disk[e.swapIndex];
      var mid := Installed(st, id, f, contents, true);
      assert contents[..Kept(e)] == contents;
      InstalledInv(st, id, f, contents, true);
      SlotReturnedInv(mid, e.swapIndex);
    }
  }

  lemma UnloadedFileView(st: State, id: PageId)
    requires Inv(st) && id in st.spt && !st.spt[id].loaded && st.spt[id].kind != SWAP
    ensures View(st, id) == FileBytes(st.files, st.spt[id])[..Kept(st.spt[id])]
  {
    hide FileBytes;
  }

  lemma LoadFileInv(st: State, id: PageId, f: nat, installs: bool)
    requires Inv(st) && id in st.spt && !st.spt[id].loaded && st.spt[id].kind != SWAP && f in st.free && f in st.ram
    ensures var out := LoadFile(st, id, f, installs);
      && out.Done? && out.ok == (installs && Fits(st.files, st.spt[id]))
      && Inv(out.st) && SameMemory(st, out.st) && SameShape(st, out.st)
    ensures var out := LoadFile(st, id, f, installs);
      (forall b :: b in st.spt && b != id ==> out.st.spt[b] == st.spt[b]) && out.st.spt[id] == st.spt[id].(loaded := out.ok)
  {
    hide TableOk, FramesOk, SwapOk, MappingOk, EntriesOk, SharingOk, CleanOk, FileBytes, View;
    var e := st.spt[id];
    if !Fits(st.files, e) {
      FreeFrameOverwrittenInv(st, f, ShortCopy(st.files, e.file, e.offset, st.ram[f]));
    } else if !installs {
      FreeFrameOverwrittenInv(st, f, FileBytes(st.files, e));
    } else {
      UnloadedFileView(st, id);
      InstalledInv(st, id, f, FileBytes(st.files, e), false);
    }
  }

  lemma SameTrans(a: State, b: State, c: State)
    requires Inv(a) && Inv(b) && Inv(c)
    requires SameMemory(a, b) && SameShape(a, b) && SameMemory(b, c) && SameShape(b, c)
    ensures SameMemory(a, c) && SameShape(a, c)
  {
    hide Valid, View, CleanOk, SharingOk;
  }

  lemma SameShapeFits(a: State, b: State, id: PageId)
    requires SameShape(a, b) && id in a.spt
    ensures Fits(a.files, a.spt[id]) == Fits(b.files, b.spt[id])
  {
  }

  /** `load_page` changes no page's bytes whether it succeeds or not, succeeds exactly when the
      page was absent, its file is long enough and the mapping could be installed, and evicts
      no page that is pinned. */
  lemma LoadPageInv(st: State, id: PageId, f: nat, installs: bool)
    requires Inv(st) && id in st.spt && GrantsFor(st, id, f)
    requires LoadPage(st, id, f, installs).Done?
    ensures var out := LoadPage(st, id, f, installs);
      Inv(out.st) && SameMemory(st, out.st) && SameShape(st, out.st)
    ensures var out := LoadPage(st, id, f, installs);
      out.ok == (!st.spt[id].loaded && installs && (st.spt[id].kind == SWAP || Fits(st.files, st.spt[id])))
    ensures var s := LoadPage(st, id, f, installs).st;
      s.spt[id] == st.spt[id].(pinned := true, loaded := st.spt[id].loaded || LoadPage(st, id, f, installs).ok)
    ensures var s := LoadPage(st, id, f, installs).st;
      forall b :: b in st.spt && b != id && (!st.spt[b].loaded || st.spt[b].pinned) ==> s.spt[b] == st.spt[b]
  {
    hide Valid, SharingOk, CleanOk, FileBytes, View, Fits, SameMemory, SameShape, LoadSwap, LoadFile, Room;
    var pinned := SetPinned(st, id, true);
    SetPinnedInv(st, id, true);
    if !st.spt[id].loaded {
      var room := Room(pinned).st;
      RoomInv(pinned);
      assert room.spt[id] == pinned.spt[id];
      SameTrans(st, pinned, room);
      SameShapeFits(st, room, id);
      if st.spt[id].kind == SWAP {
        LoadSwapInv(room, id, f, installs);
        SameTrans(st, room, LoadSwap(room, id, f, installs).st);
      } else {
        LoadFileInv(room, id, f, installs);
        SameTrans(st, room, LoadFile(room, id, f, installs).st);
      }
    }
  }

  /** A loading page is never turned away with a panic by `swap_in`: only a full swap area panics. */
  lemma LoadPagePanics(st: State, id: PageId, f: nat, installs: bool)
    requires Inv(st) && id in st.spt && GrantsFor(st, id, f)
    ensures Valid(SetPinned(st, id, true))
    ensures LoadPage(st, id, f, installs).Panicked? <==>
      !st.spt[id].loaded && Room(SetPinned(st, id, true)).Panicked?
  {
    hide TableOk, FramesOk, SwapOk, MappingOk, EntriesOk, SharingOk, CleanOk, FileBytes, View, Contents, Fits;
    var pinned := SetPinned(st, id, true);
    SetPinnedInv(st, id, true);
    if !st.spt[id].loaded && Room(pinned).Done? {
      RoomInv(pinned);
      var room := Room(pinned).st;
      if st.spt[id].kind == SWAP {
        LoadSwapInv(room, id, f, installs);
      }
    }
  }

  /** A new entry that comes into being already loaded. */
  lemma NewLoadedInv(st: State, id: PageId, entry: Spte, f: nat, contents: Page)
    requires Inv(st) && id !in st.spt && f in st.free
    requires entry.kind == SWAP && entry.writable && entry.loaded
    ensures var s := Installed(st.(spt := st.spt[id := entry]), id, f, contents, false);
      && Inv(s) && s.spt == st.spt[id := entry] && View(s, id) == contents
      && (forall b :: b in st.spt ==> View(s, b) == View(st, b))
  {
    hide View, Contents, FileBytes, TableOk, FramesOk, SwapOk, EntriesOk, SharingOk;
    var s := Installed(st.(spt := st.spt[id := entry]), id, f, contents, false);
    assert s.spt[id] == entry;
    NewLoadedValid(st, id, entry, f, contents);
    FreeFramesExist(st, f);
    forall b | b in st.spt ensures View(st, b) == View(s, b) {
      SamePlaceSameView(st, s, b);
    }
    LoadedView(s, id);
    assert contents[..PGSIZE] == contents;
  }

  lemma NewLoadedMapping(st: State, id: PageId, entry: Spte, f: nat, contents: Page)
    requires MappingOk(st.spt, st.pd) && id !in st.spt && entry.writable && entry.loaded
    ensures var s := Installed(st.(spt := st.spt[id := entry]), id, f, contents, false); MappingOk(s.spt, s.pd) && id !in st.pd
  {
  }

  lemma NewLoadedValid(st: State, id: PageId, entry: Spte, f: nat, contents: Page)
    requires Valid(st) && SharingOk(st.spt) && id !in st.spt && f in st.free
    requires entry.kind == SWAP && entry.writable && entry.loaded
    ensures var s := Installed(st.(spt := st.spt[id := entry]), id, f, contents, false); Valid(s) && SharingOk(s.spt)
  {
    NewLoadedMapping(st, id, entry, f, contents);
    hide FileBytes, TableOk, FramesOk, MappingOk, SwapOk, EntriesOk, SharingOk;
    var s := Installed(st.(spt := st.spt[id := entry]), id, f, contents, false);
    TableEntryAdded(st.pd, st.table, st.free, st.ram, id, s.pd[id], contents);
    EntriesKept(st.spt, s.spt, st.used, st.disk, st.files);
  }

  lemma MappedHasEntry(st: State, id: PageId)
    requires Valid(st)
    ensures id in st.pd ==> id in st.spt && st.spt[id].loaded
  {
  }

  /** Room is made at the cost of one page, which is unmapped. */
  lemma RoomUnmaps(st: State, id: PageId)
    requires Inv(st) && Room(st).Done?
    ensures id in Room(st).st.pd <==> id in st.pd && (st.free == {} ==> Evictable(st) && st.table[Victim(st)].id != id)
  {
    hide TableOk, FramesOk, SwapOk, MappingOk, EntriesOk, SharingOk, CleanOk;
  }

  /** Unless it collides, `stack_growth` changes no existing page; when it succeeds the new page is loaded
      and pinned. */
  lemma GrowStackInv(st: State, id: PageId, f: nat, installs: bool)
    requires Inv(st) && Grants(st, f) && GrowStack(st, id, f, installs).Done? && !Collides(st, id, installs)
    ensures var out := GrowStack(st, id, f, installs);
      && Inv(out.st) && out.ok == (PHYS_BASE - id.upage <= 0x80_0000 && installs && id !in st.spt)
      && out.st.spt.Keys == st.spt.Keys + (if out.ok then {id} else {})
      && (forall b :: b in st.spt ==> SameOrigin(st.spt[b], out.st.spt[b]) && View(out.st, b) == View(st, b))
    ensures var s := GrowStack(st, id, f, installs).st;
      && s.ram.Keys == st.ram.Keys && |s.used| == |st.used| && s.files.Keys == st.files.Keys
      && (forall g :: g in st.files ==> |s.files[g]| == |st.files[g]|)
      && (forall b :: b in st.spt && (!st.spt[b].loaded || st.spt[b].pinned) ==> s.spt[b] == st.spt[b])
    ensures var out := GrowStack(st, id, f, installs);
      out.ok ==>
        && out.st.spt[id] == Spte(SWAP, true, true, true, 0, 0, 0, 0, 0)
        && Room(st).Done? && f in Room(st).st.ram && View(out.st, id) == Room(st).st.ram[f]
        && id in out.st.pd && out.st.pd[id] == Pte(f, true, false, false)
  {
    hide TableOk, FramesOk, SwapOk, MappingOk, EntriesOk, SharingOk, CleanOk, FileBytes, View, Contents;
    if StackMayReach(id.upage) {
      RoomInv(st);
      RoomUnmaps(st, id);
      MappedHasEntry(Room(st).st, id);
      var room := Room(st).st;
      if installs && id !in st.spt {
        NewLoadedInv(room, id, Spte(SWAP, true, true, true, 0, 0, 0, 0, 0), f, room.ram[f]);
      }
    }
  }

  // ---------------------------------------------------------------- giving pages back

  lemma EntryRemovedInv(st: State, id: PageId)
    requires Inv(st) && id in st.spt && id !in st.pd
    ensures var s := st.(spt := st.spt - {id});
      Inv(s) && forall b :: b in st.spt && b != id ==> View(s, b) == View(st, b)
  {
    hide FileBytes, TableOk, FramesOk, SwapOk, EntriesOk, SharingOk;
    var s := st.(spt := st.spt - {id});
    EntriesKept(st.spt, s.spt, st.used, st.disk, st.files);
    assert Valid(s);
    forall b | b in st.spt && b != id ensures View(s, b) == View(st, b) {
      SamePlaceSameView(st, s, b);
    }
  }

  lemma DroppedValid(st: State, id: PageId)
    requires Valid(st) && id in st.pd
    ensures Valid(Dropped(st, id)) && Dropped(st, id).spt == st.spt - {id}
  {
    hide FramesOk, EntriesOk;
    var v := IndexOf(st.table, id);
    var s := Dropped(st, id);
    TableEntryRemoved(st.pd, st.table, st.free, st.ram, v);
    assert s.spt == st.spt - {id};
    EntriesGone(st, id);
  }

  lemma EntriesGone(st: State, id: PageId)
    requires Valid(st)
    ensures SwapOk(st.spt - {id}, st.used, st.disk) && EntriesOk(st.spt - {id}, st.files)
  {
    hide TableOk, FramesOk, MappingOk;
    forall a, b ensures OwnSlots(st.spt - {id}, a, b) {
      assert OwnSlots(st.spt, a, b);
    }
  }

  lemma FewerShare(spt: map<PageId, Spte>, id: PageId)
    requires SharingOk(spt)
    ensures SharingOk(spt - {id})
  {
    forall a, b ensures OwnBytes(spt - {id}, a, b) {
      assert OwnBytes(spt, a, b);
    }
  }

  lemma DroppedInv(st: State, id: PageId)
    requires Inv(st) && id in st.pd
    ensures var s := Dropped(st, id);
      && Inv(s) && s.spt == st.spt - {id} && s.files == st.files && s.ram.Keys == st.ram.Keys && s.used == st.used
      && (forall b :: b in st.spt && b != id ==> View(s, b) == View(st, b))
  {
    hide FileBytes, FramesOk, SwapOk, EntriesOk, SharingOk;
    var s := Dropped(st, id);
    DroppedValid(st, id);
    FewerShare(st.spt, id);
    forall b | b in st.spt && b != id ensures View(s, b) == View(st, b) {
      SamePlaceSameView(st, s, b);
    }
  }

  lemma DiscardedInv(st: State, id: PageId)
    requires Inv(st) && id in st.spt
    ensures var s := Discarded(st, id);
      && Inv(s) && s.spt == st.spt - {id} && s.files == st.files && s.ram.Keys == st.ram.Keys && |s.used| == |st.used|
      && (forall b :: b in st.spt && b != id ==> View(s, b) == View(st, b))
  {
    hide TableOk, FramesOk, SwapOk, MappingOk, EntriesOk, SharingOk, CleanOk, FileBytes, View, Contents;
    if id in st.pd {
      DroppedInv(st, id);
    } else {
      EntryRemovedInv(st, id);
    }
  }

  /** The file in which the bytes of an entry read `view`, and which is otherwise `before`. */
  ghost predicate FileHolds(before: seq<byte>, after: seq<byte>, offset: nat, view: seq<byte>) {
    && |after| == |before|
    && offset + |view| <= |before|
    && forall k :: 0 <= k < |before| ==> after[k] == if offset <= k < offset + |view| then view[k - offset] else before[k]
  }

  /** Of all files only the part that backs an entry may differ, and it reads `view`. */
  ghost predicate OnlyBytesOf(e: Spte, before: map<nat, seq<byte>>, after: map<nat, seq<byte>>, view: seq<byte>) {
    && after.Keys == before.Keys
    && (forall f :: f in before && (f != e.file || e.readBytes == 0) ==> after[f] == before[f])
    && (e.readBytes > 0 ==> e.file in before && FileHolds(before[e.file], after[e.file], e.offset, view))
  }

  /** Unmapping leaves in the file exactly the bytes the page last held at their place, and nothing
      else changes: the rest of that file, its length, every other file and every other page stay. */
  lemma UnmappedInv(st: State, id: PageId)
    requires Inv(st) && id in st.spt && st.spt[id].kind == MMAP
    ensures var s := Unmapped(st, id);
      && Inv(s) && s.spt == st.spt - {id} && s.ram.Keys == st.ram.Keys && |s.used| == |st.used|
      && (forall b :: b in st.spt && b != id ==> View(s, b) == View(st, b))
    ensures OnlyBytesOf(st.spt[id], st.files, Unmapped(st, id).files, View(st, id))
  {
    if id !in st.pd {
      EntryRemovedInv(st, id);
      CleanHolds(st, id);
      hide Valid, CleanOk, SharingOk, View, OnlyBytesOf;
    } else if st.pd[id].dirty {
      SavedToFileInv(st, id);
      DroppedInv(SavedToFile(st, id), id);
      SavedHolds(st, id);
      hide Valid, CleanOk, SharingOk, View, OnlyBytesOf, Dropped;
    } else {
      DroppedInv(st, id);
      CleanHolds(st, id);
      hide Valid, CleanOk, SharingOk, View, OnlyBytesOf, Dropped;
    }
  }

  /** The file of a page that was not written holds its bytes already. */
  lemma CleanHolds(st: State, id: PageId)
    requires Inv(st) && id in st.spt && st.spt[id].kind == MMAP && (id in st.pd ==> !st.pd[id].dirty)
    ensures OnlyBytesOf(st.spt[id], st.files, st.files, View(st, id))
  {
    hide TableOk, FramesOk, SwapOk, SharingOk, FileBytes;
    if id in st.pd {
      CleanUnlessDirty(st, id);
    } else {
      UnloadedFileView(st, id);
    }
    hide CleanOk, View;
    FileBytesAt(st.files, st.spt[id]);
  }

  lemma SavedHolds(st: State, id: PageId)
    requires Inv(st) && id in st.pd && st.spt[id].kind == MMAP
    ensures OnlyBytesOf(st.spt[id], st.files, SavedToFile(st, id).files, View(st, id))
  {
    hide TableOk, FramesOk, SwapOk, SharingOk, CleanOk, FileBytes;
  }

  lemma FileBytesAt(files: map<nat, seq<byte>>, e: Spte)
    requires e.readBytes <= PGSIZE && Fits(files, e)
    ensures e.readBytes > 0 ==>
      (e.file in files && FileHolds(files[e.file], files[e.file], e.offset, FileBytes(files, e)[..e.readBytes]))
  {
  }
}
