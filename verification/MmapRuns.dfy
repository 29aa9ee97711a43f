/** What unmapping leaves in the files after any run of accesses, faults, evictions and loads. */
module MmapRuns {
  import opened Machine
  import opened PagingSpec
  import opened PagingProofs
  import opened PagingRuns
  import opened MmapSpec

  /** No event of the run takes a page of the list away. */
  predicate LeavesListed(evs: seq<Event>, list: seq<Mm>) {
    forall i, k :: 0 <= i < |list| && 0 <= k < |evs| ==> !Removes(evs[k], list[i].id)
  }

  lemma {:induction false} PageSurvives(st: State, evs: seq<Event>, id: PageId)
    requires Inv(st) && Run(st, evs).Some? && id in st.spt && forall k :: 0 <= k < |evs| ==> !Removes(evs[k], id)
    ensures var s := Run(st, evs).value; id in s.spt && SameOrigin(st.spt[id], s.spt[id])
    decreases |evs|
  {
    if evs == [] {
      SameOriginRefl(st.spt[id]);
    } else {
      hide Valid, View, SharingOk, CleanOk, Step, Enabled, SameOrigin;
      StepKeeps(st, evs[0]);
      var next := Step(st, evs[0]).st;
      assert !Removes(evs[0], id);
      PageSurvives(next, evs[1..], id);
      SameOriginTrans(st.spt[id], next.spt[id], Run(st, evs).value.spt[id]);
    }
  }

  /** Pages stay mapped to their files however they are evicted and loaded. */
  lemma ListedSurvives(st: State, evs: seq<Event>, list: seq<Mm>)
    requires Inv(st) && Run(st, evs).Some? && Listed(st.spt, list) && LeavesListed(evs, list)
    ensures Listed(Run(st, evs).value.spt, list)
  {
    hide Inv, Run;
    forall i | 0 <= i < |list| && !list[i].clash
      ensures var s := Run(st, evs).value; list[i].id in s.spt && s.spt[list[i].id].kind == MMAP
    {
      PageSurvives(st, evs, list[i].id);
    }
  }

  lemma {:induction false} TakenOnList(list: seq<Mm>, mapping: int, id: PageId)
    requires id in TakenIds(list, mapping)
    ensures exists i :: 0 <= i < |list| && list[i].id == id && !list[i].clash
  {
    TakenSplit(list, mapping);
    if Takes(list[0], mapping) && list[0].id == id {
      assert list[0].id == id;
    } else {
      TakenOnList(list[1..], mapping, id);
      var i :| 0 <= i < |list[1..]| && list[1..][i].id == id && !list[1..][i].clash;
      assert list[i + 1].id == id;
    }
  }

  /** Memory-mapped write-back is complete: after any run, removing a mapping leaves in its file, byte for
      byte, what its pages last held, and the file as long as it was. */
  lemma MunmapAfterRun(st: State, evs: seq<Event>, list: seq<Mm>, mapping: int, id: PageId, i: nat)
    requires Inv(st) && Run(st, evs).Some? && Listed(st.spt, list) && LeavesListed(evs, list)
    requires id in TakenIds(list, mapping) && id in st.spt && i < st.spt[id].readBytes
    ensures Listed(Run(st, evs).value.spt, list) && i < |View(st, id)|
    ensures var e := st.spt[id]; var after := RemovedFrom(Run(st, evs).value, list, mapping).files;
      && e.file in st.files && e.file in after && |after[e.file]| == |st.files[e.file]| && e.offset + i < |after[e.file]|
      && after[e.file][e.offset + i] == LastWritten(evs, id, i, View(st, id)[i])
  {
    hide Valid, View, CleanOk, SharingOk, Run, RemovedFrom, TakenIds, DistinctPages;
    ListedSurvives(st, evs, list);
    TakenAreListed(st.spt, list, mapping);
    TakenOnList(list, mapping, id);
    ViewLength(st, id);
    Transparent(st, evs, id, i);
    RunConserves(st, evs);
    var s := Run(st, evs).value;
    RemovalWritesBack(s, list, mapping, id, i);
    MappedFits(st, id, i);
    RemovalLeavesRest(s, list, mapping, st.spt[id].file, st.spt[id].offset + i);
  }

  lemma MappedFits(st: State, id: PageId, i: nat)
    requires Inv(st) && id in st.spt && st.spt[id].kind == MMAP && i < st.spt[id].readBytes
    ensures st.spt[id].file in st.files && st.spt[id].offset + i < |st.files[st.spt[id].file]|
  {
  }

  // ---------------------------------------------------------------- rounds of a removal between other steps

  /** The byte `x` of file `f` belongs to no mapping. */
  ghost predicate Free(spt: map<PageId, Spte>, f: nat, x: nat) {
    forall id :: id in spt && spt[id].kind == MMAP ==> !Backs(spt[id], f, x)
  }

  /** Does the event itself change the byte, or map it? */
  predicate Reaches(ev: Event, f: nat, x: nat) {
    || (ev.FileWrite? && ev.file == f && ev.offset <= x < ev.offset + |ev.data|)
    || (ev.AddMmap? && ev.file == f && ev.offset <= x < ev.offset + ev.readBytes)
  }

  predicate SameByte(a: map<nat, seq<byte>>, b: map<nat, seq<byte>>, f: nat, x: nat) {
    f in a && f in b && x < |a[f]| == |b[f]| && a[f][x] == b[f][x]
  }

  lemma RoomKeepsByte(st: State, f: nat, x: nat)
    requires Inv(st) && Room(st).Done? && Free(st.spt, f, x) && f in st.files && x < |st.files[f]|
    ensures SameByte(st.files, Room(st).st.files, f, x)
  {
    if st.free == {} {
      VictimMapped(st);
      ScannedInv(st);
      WrittenKeepsByte(Scanned(st), st.table[Victim(st)].id, f, x);
      hide Valid, CleanOk, SharingOk, WrittenBack, Swept, View;
    }
  }

  /** Writing a page back reaches only the bytes the page is mapped to. */
  lemma WrittenKeepsByte(st: State, id: PageId, f: nat, x: nat)
    requires Valid(st) && id in st.pd && !SwapFullFor(st, id) && Free(st.spt, f, x) && f in st.files && x < |st.files[f]|
    ensures SameByte(st.files, WrittenBack(st, id).files, f, x)
  {
    MappedHasEntry(st, id);
    hide TableOk, FramesOk, SwapOk, MappingOk;
  }

  lemma LoadKeepsByte(st: State, id: PageId, fr: nat, installs: bool, f: nat, x: nat)
    requires Inv(st) && id in st.spt && GrantsFor(st, id, fr) && LoadPage(st, id, fr, installs).Done?
    requires Free(st.spt, f, x) && f in st.files && x < |st.files[f]|
    ensures SameByte(st.files, LoadPage(st, id, fr, installs).st.files, f, x)
  {
    hide Valid, CleanOk, SharingOk, Room, View, FileBytes;
    SetPinnedInv(st, id, true);
    if !st.spt[id].loaded {
      RoomKeepsByte(SetPinned(st, id, true), f, x);
    }
  }

  lemma GrowKeepsByte(st: State, id: PageId, fr: nat, installs: bool, f: nat, x: nat)
    requires Inv(st) && Grants(st, fr) && GrowStack(st, id, fr, installs).Done?
    requires Free(st.spt, f, x) && f in st.files && x < |st.files[f]|
    ensures SameByte(st.files, GrowStack(st, id, fr, installs).st.files, f, x)
  {
    hide Valid, CleanOk, SharingOk, Room, Backs;
    if StackMayReach(id.upage) {
      RoomKeepsByte(st, f, x);
    }
  }

  /** A byte that belongs to no mapping is changed only by an event that names it. */
  lemma StepKeepsByte(st: State, ev: Event, f: nat, x: nat)
    requires Inv(st) && Enabled(st, ev) && Step(st, ev).Done? && !Reaches(ev, f, x)
    requires Free(st.spt, f, x) && f in st.files && x < |st.files[f]|
    ensures SameByte(st.files, Step(st, ev).st.files, f, x)
  {
    hide Valid, CleanOk, SharingOk, View, FileBytes, LoadPage, GrowStack, Unmapped, Discarded, Collides, Fits, Apart;
    match ev
    case Fault(id, fr, installs) => LoadKeepsByte(st, id, fr, installs, f, x);
    case Pin(id, fr, installs) => LoadKeepsByte(st, id, fr, installs, f, x);
    case Grow(id, fr, installs) => GrowKeepsByte(st, id, fr, installs, f, x);
    case Unmap(id) => UnmappedByte(st, id, f, x);
    case Discard(id) => DiscardedInv(st, id);
    case _ =>
  }

  lemma StepKeepsFree(st: State, ev: Event, f: nat, x: nat)
    requires Inv(st) && Enabled(st, ev) && Step(st, ev).Done? && !Reaches(ev, f, x) && Free(st.spt, f, x)
    ensures Free(Step(st, ev).st.spt, f, x)
  {
    hide Valid, CleanOk, SharingOk, View, Step, Enabled;
    StepKeeps(st, ev);
    var s := Step(st, ev).st;
    forall id | id in s.spt && s.spt[id].kind == MMAP ensures !Backs(s.spt[id], f, x) {
      if id !in st.spt {
        NewEntry(st, ev, id);
      }
    }
  }

  lemma NewEntry(st: State, ev: Event, id: PageId)
    requires Inv(st) && Enabled(st, ev) && Step(st, ev).Done? && Creates(ev, id)
    ensures var s := Step(st, ev).st; id in s.spt && id !in st.spt && s.spt[id].kind == MMAP ==>
      ev.AddMmap? && s.spt[id].file == ev.file && s.spt[id].offset == ev.offset && s.spt[id].readBytes == ev.readBytes
  {
    hide Valid, CleanOk, SharingOk, View, FileBytes, GrowStack, Collides, Fits, Apart;
    if ev.Grow? {
      GrowStackInv(st, ev.id, ev.f, ev.installs);
    }
  }

  lemma {:induction false} RunKeepsByte(st: State, evs: seq<Event>, f: nat, x: nat)
    requires Inv(st) && Run(st, evs).Some? && Free(st.spt, f, x) && f in st.files && x < |st.files[f]|
    requires forall k :: 0 <= k < |evs| ==> !Reaches(evs[k], f, x)
    ensures var files := Run(st, evs).value.files; f in files && |files[f]| == |st.files[f]| && files[f][x] == st.files[f][x]
    decreases |evs|
  {
    if evs != [] {
      hide Valid, CleanOk, SharingOk, View, Step, Enabled, Free, Reaches, Keeps;
      assert !Reaches(evs[0], f, x);
      StepKeeps(st, evs[0]);
      StepKeepsByte(st, evs[0], f, x);
      StepKeepsFree(st, evs[0], f, x);
      RunKeepsByte(Step(st, evs[0]).st, evs[1..], f, x);
    }
  }

  lemma {:induction false} RunSplit(st: State, evs: seq<Event>, p: nat)
    requires Inv(st) && Run(st, evs).Some? && p < |evs|
    ensures Run(st, evs[..p]).Some?
    ensures var s := Run(st, evs[..p]).value;
      && Inv(s) && Enabled(s, evs[p]) && Step(s, evs[p]).Done? && Inv(Step(s, evs[p]).st)
      && Run(st, evs) == Run(Step(s, evs[p]).st, evs[p + 1..])
    decreases p
  {
    hide Valid, CleanOk, SharingOk, View, Step, Enabled, Keeps;
    StepKeeps(st, evs[0]);
    if p > 0 {
      RunSplit(Step(st, evs[0]).st, evs[1..], p - 1);
      assert evs[..p][0] == evs[0] && evs[..p][1..] == evs[1..][..p - 1] && evs[1..][p..] == evs[p + 1..];
    }
  }

  /** The rounds of a removal may have any other steps between them, evictions of the mapping's own pages among
      them: once a page was unmapped, its file holds what the page last held for as long as nobody writes or
      maps those bytes again. */
  lemma UnmapLasts(st: State, evs: seq<Event>, p: nat, id: PageId, i: nat)
    requires Inv(st) && Run(st, evs).Some? && p < |evs| && evs[p] == Unmap(id)
    requires id in st.spt && st.spt[id].kind == MMAP && i < st.spt[id].readBytes
    requires forall k :: 0 <= k < p ==> !Removes(evs[k], id)
    requires forall k :: p < k < |evs| ==> !Reaches(evs[k], st.spt[id].file, st.spt[id].offset + i)
    ensures i < |View(st, id)|
    ensures var after := Run(st, evs).value.files; var e := st.spt[id];
      && e.file in st.files && e.file in after && |after[e.file]| == |st.files[e.file]| && e.offset + i < |after[e.file]|
      && after[e.file][e.offset + i] == LastWritten(evs[..p], id, i, View(st, id)[i])
  {
    hide *;
    var e := st.spt[id];
    JustUnmapped(st, evs, p, id, i);
    var later := evs[p + 1..];
    forall k | 0 <= k < |later| ensures !Reaches(later[k], e.file, e.offset + i) {
      assert later[k] == evs[p + 1 + k];
    }
    RunKeepsByte(Unmapped(Run(st, evs[..p]).value, id), later, e.file, e.offset + i);
  }

  lemma JustUnmapped(st: State, evs: seq<Event>, p: nat, id: PageId, i: nat)
    requires Inv(st) && Run(st, evs).Some? && p < |evs| && evs[p] == Unmap(id)
    requires id in st.spt && st.spt[id].kind == MMAP && i < st.spt[id].readBytes
    requires forall k :: 0 <= k < p ==> !Removes(evs[k], id)
    ensures Run(st, evs[..p]).Some? && i < |View(st, id)|
    ensures var s := Run(st, evs[..p]).value; var e := st.spt[id];
      && Valid(s) && id in s.spt && s.spt[id].kind == MMAP && Inv(Unmapped(s, id))
      && Run(st, evs) == Run(Unmapped(s, id), evs[p + 1..]) && Free(Unmapped(s, id).spt, e.file, e.offset + i)
      && var after := Unmapped(s, id).files;
      && e.file in st.files && e.file in after && |after[e.file]| == |st.files[e.file]| && e.offset + i < |after[e.file]|
      && after[e.file][e.offset + i] == LastWritten(evs[..p], id, i, View(st, id)[i])
  {
    hide Valid, CleanOk, SharingOk, View, Run, Unmapped, LastWritten, Free;
    RunSplit(st, evs, p);
    PageSurvives(st, evs[..p], id);
    MunmapWritesEverything(st, evs[..p], id, i);
    FreeOnceUnmapped(Run(st, evs[..p]).value, id, i);
  }

  lemma FreeOnceUnmapped(st: State, id: PageId, i: nat)
    requires Inv(st) && id in st.spt && st.spt[id].kind == MMAP && i < st.spt[id].readBytes
    ensures Inv(Unmapped(st, id)) && Free(Unmapped(st, id).spt, st.spt[id].file, st.spt[id].offset + i)
  {
    UnmappedInv(st, id);
    hide Valid, CleanOk, View, Unmapped;
    forall b | b in st.spt && b != id && st.spt[b].kind == MMAP ensures !Backs(st.spt[b], st.spt[id].file, st.spt[id].offset + i) {
      assert OwnBytes(st.spt, id, b);
    }
  }
}
