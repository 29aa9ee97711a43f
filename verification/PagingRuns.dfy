/** Paging is transparent: over every run the pages behave like flat memory. */
module PagingRuns {
  import opened Machine
  import opened PagingSpec
  import opened PagingProofs

  /** One atomic step of the machine. `f` is the frame granted to a step that needs one, `installs`
      whether the page directory could take the mapping. */
  datatype Event =
    | Read(id: PageId, i: nat)                          // a user load
    | Write(id: PageId, i: nat, b: byte)                // a user store
    | Fault(id: PageId, f: nat, installs: bool)         // page_fault on a page with an entry
    | Pin(id: PageId, f: nat, installs: bool)           // check_valid_ptr on a page with an entry
    | Unpin(id: PageId)                                 // unpin_ptr
    | Grow(id: PageId, f: nat, installs: bool)          // stack_growth
    | AddFile(id: PageId, file: nat, offset: nat, readBytes: nat, writable: bool)
    | AddMmap(id: PageId, file: nat, offset: nat, readBytes: nat)
    | Unmap(id: PageId)                                 // process_remove_mmap, one entry
    | Discard(id: PageId)                               // page_function, one entry
    | FileWrite(file: nat, offset: nat, data: seq<byte>) // write() to a file that backs no page

  function FileEntry(ev: Event): Spte
    requires (ev.AddFile? || ev.AddMmap?) && ev.readBytes <= PGSIZE
  {
    if ev.AddFile? then Spte(FILE, ev.writable, false, false, ev.file, ev.offset, ev.readBytes, PGSIZE - ev.readBytes, 0)
    else Spte(MMAP, true, false, false, ev.file, ev.offset, ev.readBytes, PGSIZE - ev.readBytes, 0)
  }

  /** When an event can happen. User accesses need a present page (writes a writable one), new
      entries need a free page, mapped files are shared with nothing else, and stack growth does not
      collide (see `GrowthCollision`). */
  ghost predicate Enabled(st: State, ev: Event)
    requires Inv(st)
  {
    match ev
    case Read(id, i) => id in st.pd && i < PGSIZE
    case Write(id, i, b) => id in st.pd && st.pd[id].writable && i < PGSIZE
    case Fault(id, f, installs) =>
      id in st.spt && id !in st.pd && GrantsFor(st, id, f)
    case Pin(id, f, installs) =>
      id in st.spt && GrantsFor(st, id, f)
    case Unpin(id) => id in st.spt
    case Grow(id, f, installs) => Grants(st, f) && !Collides(st, id, installs)
    case AddFile(id, file, offset, readBytes, writable) =>
      id !in st.spt && readBytes <= PGSIZE
      && forall b :: b in st.spt && st.spt[b].kind == MMAP ==> Apart(st.spt[b], FileEntry(ev))
    case AddMmap(id, file, offset, readBytes) =>
      id !in st.spt && readBytes <= PGSIZE && Fits(st.files, FileEntry(ev))
      && forall b :: b in st.spt && st.spt[b].kind != SWAP ==> Apart(FileEntry(ev), st.spt[b])
    case Unmap(id) => id in st.spt && st.spt[id].kind == MMAP
    case Discard(id) => id in st.spt
    case FileWrite(file, offset, data) =>
      file in st.files && forall b :: b in st.spt && st.spt[b].kind != SWAP ==> st.spt[b].file != file
  }

  function Touched(st: State, id: PageId, write: bool): State
    requires id in st.pd
  {
    st.(pd := st.pd[id := st.pd[id].(accessed := true, dirty := st.pd[id].dirty || write)])
  }

  function Stored(st: State, id: PageId, i: nat, b: byte): State
    requires id in st.pd && st.pd[id].frame in st.ram && i < PGSIZE
  {
    var f := st.pd[id].frame;
    Touched(st, id, true).(ram := st.ram[f := st.ram[f][i := b]])
  }

  ghost function Step(st: State, ev: Event): Outcome
    requires Inv(st) && Enabled(st, ev)
  {
    match ev
    case Read(id, i) => Done(Touched(st, id, false), true)
    case Write(id, i, b) => MappedFrameInRam(st, id); Done(Stored(st, id, i, b), true)
    case Fault(id, f, installs) =>
      var out := LoadPage(st, id, f, installs);
      if out.Done? then LoadPageInv(st, id, f, installs); out.(st := SetPinned(out.st, id, false)) else out
    case Pin(id, f, installs) => LoadPage(st, id, f, installs)
    case Unpin(id) => Done(SetPinned(st, id, false), true)
    case Grow(id, f, installs) => GrowStack(st, id, f, installs)
    case AddFile(id, file, offset, readBytes, writable) => Done(st.(spt := st.spt[id := FileEntry(ev)]), true)
    case AddMmap(id, file, offset, readBytes) => Done(st.(spt := st.spt[id := FileEntry(ev)]), true)
    case Unmap(id) => Done(Unmapped(st, id), true)
    case Discard(id) => Done(Discarded(st, id), true)
    case FileWrite(file, offset, data) => Done(st.(files := st.files[file := WriteAt(st.files[file], data, offset)]), true)
  }

  /** The byte a user load returns. */
  function Loaded(st: State, id: PageId, i: nat): byte
    requires Valid(st) && id in st.pd && i < PGSIZE
  {
    Located(st, id)[i]
  }

  // ---------------------------------------------------------------- one step refines flat memory

  /** What each event means for a flat memory `m`, with no frames, swap or loading in it. */
  ghost predicate FlatNext(m: map<PageId, seq<byte>>, files: map<nat, seq<byte>>, ev: Event, m': map<PageId, seq<byte>>) {
    match ev
    case Write(id, i, b) => id in m && m' == m[id := if i < |m[id]| then m[id][i := b] else m[id]]
    case Grow(id, f, installs) => m' == m || (id !in m && id in m' && |m'[id]| == PGSIZE && m' == m[id := m'[id]])
    case AddFile(id, file, offset, readBytes, writable) =>
      id !in m && readBytes <= PGSIZE && m' == m[id := FileBytes(files, FileEntry(ev))]
    case AddMmap(id, file, offset, readBytes) =>
      id !in m && readBytes <= PGSIZE && m' == m[id := FileBytes(files, FileEntry(ev))[..readBytes]]
    case Unmap(id) => m' == m - {id}
    case Discard(id) => m' == m - {id}
    case _ => m' == m
  }

  lemma TouchedInv(st: State, id: PageId, write: bool)
    requires Inv(st) && id in st.pd && (write ==> st.pd[id].writable)
    ensures var s := Touched(st, id, write);
      Inv(s) && (forall b :: b in st.spt ==> View(s, b) == View(st, b)) && s.pd.Keys == st.pd.Keys
  {
    hide FileBytes, View, Contents, FramesOk, SwapOk, EntriesOk, SharingOk;
    var s := Touched(st, id, write);
    assert s.pd.Keys == st.pd.Keys;
    assert Valid(s);
    forall b | b in st.spt ensures View(s, b) == View(st, b) {
      SamePlaceSameView(st, s, b);
    }
  }

  lemma FramesDistinct(st: State, a: PageId, b: PageId)
    requires Valid(st) && a in st.pd && b in st.pd && a != b
    ensures st.pd[a].frame != st.pd[b].frame
  {
    assert a in Ids(st.table) && b in Ids(st.table);
    var i :| 0 <= i < |st.table| && st.table[i].id == a;
    var j :| 0 <= j < |st.table| && st.table[j].id == b;
    assert Differ(st.table, i, j) && Differ(st.table, j, i);
  }

  /** A store changes one byte of one page: pages do not share frames. */
  lemma StoredInv(st: State, id: PageId, i: nat, b: byte)
    requires Inv(st) && id in st.pd && st.pd[id].frame in st.ram && i < PGSIZE && st.pd[id].writable
    ensures var s := Stored(st, id, i, b);
      && Inv(s) && (forall x :: x in st.spt && x != id ==> View(s, x) == View(st, x))
      && View(s, id) == if i < |View(st, id)| then View(st, id)[i := b] else View(st, id)
  {
    hide FileBytes, View, Contents, TableOk, SwapOk, EntriesOk, SharingOk;
    var t := Touched(st, id, true);
    TouchedInv(st, id, true);
    var s := Stored(st, id, i, b);
    assert s == t.(ram := s.ram);
    MappedFrameInRam(st, id);
    assert Valid(s);
    forall x | x in st.pd && x != id ensures Located(s, x) == Located(t, x) {
      FramesDistinct(st, x, id);
      MappedFrameInRam(st, x);
    }
    forall x | x in st.spt && x != id ensures View(s, x) == View(t, x) {
      SamePlaceSameView(t, s, x);
    }
    LoadedView(s, id);
    LoadedView(st, id);
    KeptWithinPage(st, id);
    UpdatedPrefix(Located(st, id), i, b, Kept(st.spt[id]));
  }

  lemma KeptWithinPage(st: State, id: PageId)
    requires Valid(st) && id in st.spt
    ensures Kept(st.spt[id]) <= PGSIZE
  {
  }

  lemma UpdatedPrefix(p: seq<byte>, i: nat, b: byte, k: nat)
    requires i < |p| && k <= |p|
    ensures p[i := b][..k] == if i < k then p[..k][i := b] else p[..k]
  {
  }

  lemma AddedShares(st: State, ev: Event)
    requires Inv(st) && (ev.AddFile? || ev.AddMmap?) && Enabled(st, ev)
    ensures SharingOk(Step(st, ev).st.spt)
  {
    hide Valid, CleanOk;
    var s := Step(st, ev).st;
    forall x, y ensures OwnBytes(s.spt, x, y) {
      assert OwnBytes(st.spt, x, y);
    }
  }

  lemma AddedValid(st: State, id: PageId, e: Spte)
    requires Valid(st) && id !in st.spt && !e.loaded && e.kind != SWAP
    requires e.readBytes + e.zeroBytes == PGSIZE && (e.kind == MMAP ==> e.writable && Fits(st.files, e))
    ensures Valid(st.(spt := st.spt[id := e]))
  {
    hide FileBytes, TableOk, FramesOk;
    SlotsKept(st.spt, st.spt[id := e]);
  }

  lemma AddedInv(st: State, ev: Event)
    requires Inv(st) && (ev.AddFile? || ev.AddMmap?) && Enabled(st, ev)
    ensures var s := Step(st, ev).st; var e := FileEntry(ev);
      && Inv(s) && s.spt == st.spt[ev.id := e] && View(s, ev.id) == FileBytes(st.files, e)[..Kept(e)]
      && (forall x :: x in st.spt ==> View(s, x) == View(st, x))
  {
    hide FileBytes, View, Contents, TableOk, FramesOk, SwapOk, EntriesOk, SharingOk, Apart;
    var s := Step(st, ev).st;
    AddedValid(st, ev.id, FileEntry(ev));
    AddedShares(st, ev);
    assert CleanOk(s.spt, s.pd, s.ram, s.files);
    forall x | x in st.spt ensures View(s, x) == View(st, x) {
      SamePlaceSameView(st, s, x);
    }
    UnloadedFileView(s, ev.id);
  }

  lemma FileWrittenInv(st: State, ev: Event)
    requires Inv(st) && ev.FileWrite? && Enabled(st, ev)
    ensures var s := Step(st, ev).st; Inv(s) && SameMemory(st, s) && SameShape(st, s)
  {
    hide View, Contents, TableOk, FramesOk;
    var s := Step(st, ev).st;
    forall x | x in st.spt && st.spt[x].kind != SWAP ensures FileBytes(s.files, st.spt[x]) == FileBytes(st.files, st.spt[x]) {}
    assert Valid(s);
    hide FileBytes;
    forall x | x in st.spt ensures View(s, x) == View(st, x) {
      SamePlaceSameView(st, s, x);
    }
  }

  predicate Removes(ev: Event, id: PageId) {
    (ev.Unmap? || ev.Discard?) && ev.id == id
  }

  predicate Creates(ev: Event, id: PageId) {
    (ev.Grow? || ev.AddFile? || ev.AddMmap?) && ev.id == id
  }

  /** The bytes `before` of page `id` after an event. */
  function After(ev: Event, id: PageId, before: seq<byte>): seq<byte> {
    if ev.Write? && ev.id == id && ev.i < |before| then before[ev.i := ev.b] else before
  }

  /** What an event does to each page is just what it says: nothing, unless it is a store to that
      page; the number of frames and slots and every file's length stay. */
  ghost predicate Keeps(st: State, ev: Event, s: State)
    requires Inv(st) && Inv(s)
  {
    && (forall id :: id in st.spt && !Removes(ev, id) ==>
          id in s.spt && SameOrigin(st.spt[id], s.spt[id]) && View(s, id) == After(ev, id, View(st, id)))
    && (forall id :: id in s.spt ==> id in st.spt || Creates(ev, id))
    && (forall id :: Removes(ev, id) ==> id !in s.spt)
    && s.ram.Keys == st.ram.Keys && |s.used| == |st.used| && s.files.Keys == st.files.Keys
    && (forall f :: f in st.files ==> |s.files[f]| == |st.files[f]|)
  }

  lemma QuietKeeps(st: State, ev: Event, s: State)
    requires Inv(st) && Inv(s) && SameMemory(st, s) && SameShape(st, s)
    requires !ev.Write? && !ev.Unmap? && !ev.Discard?
    ensures Keeps(st, ev, s)
  {
    hide Valid, View, CleanOk, SharingOk;
  }

  lemma FaultKeeps(st: State, ev: Event)
    requires Inv(st) && ev.Fault? && Enabled(st, ev) && Step(st, ev).Done?
    ensures Inv(Step(st, ev).st) && Keeps(st, ev, Step(st, ev).st)
  {
    hide Valid, View, CleanOk, SharingOk, LoadPage, Keeps, SameOrigin;
    var mid := LoadPage(st, ev.id, ev.f, ev.installs).st;
    LoadPageInv(st, ev.id, ev.f, ev.installs);
    SetPinnedInv(mid, ev.id, false);
    SameTrans(st, mid, SetPinned(mid, ev.id, false));
    QuietKeeps(st, ev, SetPinned(mid, ev.id, false));
  }

  lemma AccessKeeps(st: State, ev: Event)
    requires Inv(st) && (ev.Read? || ev.Write?) && Enabled(st, ev)
    ensures Inv(Step(st, ev).st) && Keeps(st, ev, Step(st, ev).st)
  {
    hide Valid, FileBytes, View, SharingOk, CleanOk;
    if ev.Read? {
      TouchedInv(st, ev.id, false);
    } else {
      MappedFrameInRam(st, ev.id);
      StoredInv(st, ev.id, ev.i, ev.b);
    }
  }

  lemma GrowKeeps(st: State, ev: Event)
    requires Inv(st) && ev.Grow? && Enabled(st, ev) && Step(st, ev).Done?
    ensures Inv(Step(st, ev).st) && Keeps(st, ev, Step(st, ev).st)
  {
    hide Valid, FileBytes, View, SharingOk, CleanOk, GrowStack;
    GrowStackInv(st, ev.id, ev.f, ev.installs);
  }

  lemma AddKeeps(st: State, ev: Event)
    requires Inv(st) && (ev.AddFile? || ev.AddMmap?) && Enabled(st, ev)
    ensures Inv(Step(st, ev).st) && Keeps(st, ev, Step(st, ev).st)
  {
    hide Valid, FileBytes, View, SharingOk, CleanOk, Apart, Fits;
    AddedInv(st, ev);
  }

  lemma RemoveKeeps(st: State, ev: Event)
    requires Inv(st) && (ev.Unmap? || ev.Discard?) && Enabled(st, ev)
    ensures Inv(Step(st, ev).st) && Keeps(st, ev, Step(st, ev).st)
  {
    hide Valid, FileBytes, View, SharingOk, CleanOk, Discarded, Unmapped;
    if ev.Unmap? {
      UnmappedInv(st, ev.id);
    } else {
      DiscardedInv(st, ev.id);
    }
  }

  /** Every step keeps the invariant. */
  lemma StepKeeps(st: State, ev: Event)
    requires Inv(st) && Enabled(st, ev) && Step(st, ev).Done?
    ensures Inv(Step(st, ev).st) && Keeps(st, ev, Step(st, ev).st)
  {
    hide Valid, FileBytes, View, SharingOk, CleanOk, LoadPage, SameMemory, SameShape, Keeps;
    match ev
    case Read(_, _) => AccessKeeps(st, ev);
    case Write(_, _, _) => AccessKeeps(st, ev);
    case Fault(_, _, _) => FaultKeeps(st, ev);
    case Pin(id, f, installs) =>
      LoadPageInv(st, id, f, installs);
      QuietKeeps(st, ev, LoadPage(st, id, f, installs).st);
    case Unpin(id) =>
      SetPinnedInv(st, id, false);
      QuietKeeps(st, ev, SetPinned(st, id, false));
    case Grow(_, _, _) => GrowKeeps(st, ev);
    case AddFile(_, _, _, _, _) => AddKeeps(st, ev);
    case AddMmap(_, _, _, _) => AddKeeps(st, ev);
    case Unmap(_) => RemoveKeeps(st, ev);
    case Discard(_) => RemoveKeeps(st, ev);
    case FileWrite(_, _, _) =>
      FileWrittenInv(st, ev);
      QuietKeeps(st, ev, Step(st, ev).st);
  }

  lemma FlatKeeps(st: State, ev: Event, s: State)
    requires Inv(st) && Inv(s) && Keeps(st, ev, s)
    ensures forall id :: id in Flat(st) && !Removes(ev, id) ==> id in Flat(s) && Flat(s)[id] == After(ev, id, Flat(st)[id])
    ensures forall id :: id in Flat(s) ==> !Removes(ev, id) && (id in Flat(st) || Creates(ev, id))
    ensures Flat(st).Keys == st.spt.Keys
  {
    hide Valid, View, SharingOk, CleanOk, SameOrigin;
  }

  lemma FlatAdded(st: State, ev: Event)
    requires Inv(st) && (ev.AddFile? || ev.AddMmap? || ev.Grow?) && Enabled(st, ev) && Step(st, ev).Done?
    requires Inv(Step(st, ev).st)
    ensures var s := Step(st, ev).st;
      if ev.Grow? then ev.id in Flat(s) && ev.id !in Flat(st) ==> |Flat(s)[ev.id]| == PGSIZE
      else ev.id !in Flat(st) && ev.id in Flat(s) && Flat(s)[ev.id] == FileBytes(st.files, FileEntry(ev))[..Kept(FileEntry(ev))]
  {
    hide Valid, FileBytes, View, SharingOk, CleanOk, GrowStack, Apart;
    var s := Step(st, ev).st;
    if ev.Grow? {
      GrowStackInv(st, ev.id, ev.f, ev.installs);
      if ev.id in s.spt && ev.id !in st.spt {
        KeptLength(s, ev.id);
      }
    } else {
      AddedInv(st, ev);
    }
  }

  /** A memory that changed only where the event says went through the event's step. */
  lemma FlatNextFrom(m: map<PageId, seq<byte>>, files: map<nat, seq<byte>>, ev: Event, m': map<PageId, seq<byte>>)
    requires forall id :: id in m && !Removes(ev, id) ==> id in m' && m'[id] == After(ev, id, m[id])
    requires forall id :: id in m' ==> !Removes(ev, id) && (id in m || Creates(ev, id))
    requires ev.Write? ==> ev.id in m
    requires ev.Grow? && ev.id in m' && ev.id !in m ==> |m'[ev.id]| == PGSIZE
    requires ev.AddFile? || ev.AddMmap? ==>
      && ev.readBytes <= PGSIZE && ev.id !in m && ev.id in m'
      && m'[ev.id] == FileBytes(files, FileEntry(ev))[..Kept(FileEntry(ev))]
    ensures FlatNext(m, files, ev, m')
  {
    hide FileBytes;
    if ev.Write? {
      assert m' == m[ev.id := After(ev, ev.id, m[ev.id])];
    } else if ev.Unmap? || ev.Discard? {
      assert m' == m - {ev.id};
    } else if (ev.AddFile? || ev.AddMmap? || ev.Grow?) && ev.id in m' && ev.id !in m {
      assert m' == m[ev.id := m'[ev.id]];
      if !ev.Grow? {
        WholeFilePage(files, FileEntry(ev));
      }
    } else {
      assert m' == m;
    }
  }

  /** One step of demand paging is one step of flat memory. */
  lemma StepRefinesFlat(st: State, ev: Event)
    requires Inv(st) && Enabled(st, ev) && Step(st, ev).Done?
    ensures Inv(Step(st, ev).st) && FlatNext(Flat(st), st.files, ev, Flat(Step(st, ev).st))
  {
    hide Valid, CleanOk, SharingOk, FileBytes, View, Step, Keeps, Flat, FlatNext, Apart, Fits;
    StepKeeps(st, ev);
    FlatKeeps(st, ev, Step(st, ev).st);
    if ev.Write? {
      MappedHasEntry(st, ev.id);
    } else if ev.AddFile? || ev.AddMmap? || ev.Grow? {
      FlatAdded(st, ev);
    }
    FlatNextFrom(Flat(st), st.files, ev, Flat(Step(st, ev).st));
  }

  lemma WholeFilePage(files: map<nat, seq<byte>>, e: Spte)
    ensures FileBytes(files, e)[..PGSIZE] == FileBytes(files, e)
  {
  }

  lemma KeptLength(st: State, id: PageId)
    requires Valid(st) && id in st.spt
    ensures |View(st, id)| == Kept(st.spt[id])
  {
    KeptWithinPage(st, id);
  }

  // ---------------------------------------------------------------- whole runs

  /** The state after a run; none if an event is not possible or does not return. */
  ghost function Run(st: State, evs: seq<Event>): (r: Option<State>)
    requires Inv(st)
    ensures r.Some? ==> Inv(r.value)
    decreases |evs|
  {
    if evs == [] then Some(st)
    else if !Enabled(st, evs[0]) || !Step(st, evs[0]).Done? then None
    else
      StepKeeps(st, evs[0]);
      Run(Step(st, evs[0]).st, evs[1..])
  }

  /** The last byte the events store at `id[i]`, or `init` if they store none. */
  function LastWritten(evs: seq<Event>, id: PageId, i: nat, init: byte): byte {
    if evs == [] then init
    else LastWritten(evs[1..], id, i, if evs[0].Write? && evs[0].id == id && evs[0].i == i then evs[0].b else init)
  }

  /** Paging is transparent: whatever faults, loads, evictions, stack growth, mappings and accesses
      of whatever processes a run interleaves, each kept byte of a page that stays mapped in the
      supplemental table is the last one stored there, or else its first one. */
  lemma {:induction false} Transparent(st: State, evs: seq<Event>, id: PageId, i: nat)
    requires Inv(st) && Run(st, evs).Some?
    requires id in st.spt && i < |View(st, id)|
    requires forall k :: 0 <= k < |evs| ==> !Removes(evs[k], id)
    ensures var s := Run(st, evs).value;
      && id in s.spt && SameOrigin(st.spt[id], s.spt[id]) && |View(s, id)| == |View(st, id)|
      && View(s, id)[i] == LastWritten(evs, id, i, View(st, id)[i])
    decreases |evs|
  {
    hide Valid, View, SharingOk, CleanOk, Step, Enabled, SameOrigin;
    if evs != [] {
      var ev, next := evs[0], Step(st, evs[0]).st;
      StepKeeps(st, ev);
      assert !Removes(ev, id);
      Transparent(next, evs[1..], id, i);
      SameOriginTrans(st.spt[id], next.spt[id], Run(st, evs).value.spt[id]);
    } else {
      SameOriginRefl(st.spt[id]);
    }
  }

  lemma SameOriginRefl(a: Spte)
    ensures SameOrigin(a, a)
  {
  }

  lemma SameOriginTrans(a: Spte, b: Spte, c: Spte)
    requires SameOrigin(a, b) && SameOrigin(b, c)
    ensures SameOrigin(a, c)
  {
  }

  /** A load returns the last byte stored at its address, or else the page's first byte there. */
  lemma LoadReturnsLastStore(st: State, evs: seq<Event>, id: PageId, i: nat)
    requires Inv(st) && Run(st, evs).Some? && Enabled(Run(st, evs).value, Read(id, i))
    requires id in st.spt && i < Kept(st.spt[id])
    requires forall k :: 0 <= k < |evs| ==> !Removes(evs[k], id)
    ensures |View(st, id)| > i
    ensures var s := Run(st, evs).value;
      Inv(s) && id in s.pd && i < PGSIZE && Loaded(s, id, i) == LastWritten(evs, id, i, View(st, id)[i])
  {
    hide Valid, View, Contents, SharingOk, CleanOk, Run;
    KeptLength(st, id);
    Transparent(st, evs, id, i);
    var s := Run(st, evs).value;
    LoadedView(s, id);
    KeptLength(s, id);
  }

  /** No step makes or loses a frame, and none changes how long a file is. */
  lemma {:induction false} RunConserves(st: State, evs: seq<Event>)
    requires Inv(st) && Run(st, evs).Some?
    ensures var s := Run(st, evs).value;
      && |s.free| + |s.table| == |st.free| + |st.table|
      && s.ram.Keys == st.ram.Keys && s.files.Keys == st.files.Keys && |s.used| == |st.used|
      && forall f :: f in st.files ==> |s.files[f]| == |st.files[f]|
    decreases |evs|
  {
    hide Valid, View, SharingOk, CleanOk, Step, Enabled;
    Conservation(st);
    if evs != [] {
      StepKeeps(st, evs[0]);
      RunConserves(Step(st, evs[0]).st, evs[1..]);
      Conservation(Run(st, evs).value);
      Conservation(Step(st, evs[0]).st);
      assert |Step(st, evs[0]).st.ram.Keys| == |st.ram.Keys|;
    }
  }

  /** Write-back is complete: however a mapped page was written, evicted and reloaded, unmapping
      leaves its bytes of the file exactly as the mapping last held them, and the file as long. */
  lemma MunmapWritesEverything(st: State, evs: seq<Event>, id: PageId, i: nat)
    requires Inv(st) && Run(st, evs).Some?
    requires id in st.spt && st.spt[id].kind == MMAP && i < st.spt[id].readBytes
    requires forall k :: 0 <= k < |evs| ==> !Removes(evs[k], id)
    ensures |View(st, id)| > i
    ensures var s := Run(st, evs).value; var e := st.spt[id];
      && id in s.spt && s.spt[id].kind == MMAP && e.file in st.files
      && var after := Unmapped(s, id).files;
      && e.file in after && |after[e.file]| == |st.files[e.file]| && e.offset + i < |after[e.file]|
      && after[e.file][e.offset + i] == LastWritten(evs, id, i, View(st, id)[i])
  {
    hide Valid, View, Contents, SharingOk, CleanOk, Run, Unmapped;
    KeptLength(st, id);
    Transparent(st, evs, id, i);
    RunConserves(st, evs);
    var s := Run(st, evs).value;
    UnmappedInv(s, id);
    KeptLength(s, id);
  }
}
