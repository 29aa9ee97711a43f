/** Memory-mapped files: the list of a process's mapped pages, what mapping enters and what unmapping
    gives back (userprog/syscall.c:266-302, vm/page.c:270-300, userprog/process.c:634-700). */
module MmapSpec {
  import opened Machine
  import opened PagingSpec
  import opened PagingProofs

  const CLOSE_ALL: int := -1

  /** `struct mmap_file`: one page of a mapping. `clash` marks an entry that found its page taken
      (HASH_ERROR), `handle` is the mapping's own open file. */
  datatype Mm = Mm(mapid: nat, id: PageId, clash: bool, handle: nat)

  /** What `process_remove_mmap (mapping)` removes. */
  predicate Matches(mm: Mm, mapping: int) {
    mm.mapid == mapping || mapping == CLOSE_ALL
  }

  predicate Takes(mm: Mm, mapping: int) {
    Matches(mm, mapping) && !mm.clash
  }

  function Remaining(list: seq<Mm>, mapping: int): seq<Mm> {
    if list == [] then []
    else (if Matches(list[0], mapping) then [] else [list[0]]) + Remaining(list[1..], mapping)
  }

  /** The pages that lose their entries. */
  function TakenIds(list: seq<Mm>, mapping: int): set<PageId> {
    if list == [] then {}
    else (if Takes(list[0], mapping) then {list[0].id} else {}) + TakenIds(list[1..], mapping)
  }

  predicate DistinctPages(list: seq<Mm>) {
    forall i, j :: 0 <= i < j < |list| && !list[i].clash && !list[j].clash ==> list[i].id != list[j].id
  }

  /** Every listed page, but for a clash, has an entry of its own, a mapped one. */
  predicate Listed(spt: map<PageId, Spte>, list: seq<Mm>) {
    && DistinctPages(list)
    && (forall i :: 0 <= i < |list| && !list[i].clash ==> list[i].id in spt && spt[list[i].id].kind == MMAP)
  }

  // ---------------------------------------------------------------- unmapping a list of pages

  lemma UnmappedValid(st: State, id: PageId)
    requires Valid(st) && id in st.spt && st.spt[id].kind == MMAP
    ensures Valid(Unmapped(st, id)) && Unmapped(st, id).spt == st.spt - {id}
  {
    if id !in st.pd {
      EntryGone(st, id);
    } else {
      var saved := if st.pd[id].dirty then SavedToFile(st, id) else st;
      if st.pd[id].dirty {
        SavedToFileValid(st, id);
      }
      DroppedValid(saved, id);
    }
  }

  lemma EntryGone(st: State, id: PageId)
    requires Valid(st) && id in st.spt && id !in st.pd
    ensures Valid(st.(spt := st.spt - {id}))
  {
    hide TableOk, FramesOk;
    var spt := st.spt - {id};
    forall a, b ensures OwnSlots(spt, a, b) {
      assert OwnSlots(st.spt, a, b);
    }
  }

  lemma ListedTail(spt: map<PageId, Spte>, list: seq<Mm>)
    requires Listed(spt, list) && list != []
    ensures Listed(spt, list[1..]) && (!list[0].clash ==> Listed(spt - {list[0].id}, list[1..]))
  {
    forall i | 0 <= i < |list[1..]| ensures list[1..][i] == list[i + 1] {
    }
  }

  /** What the rounds of the loop leave, from the front of the list to its end. */
  function RemovedFrom(st: State, list: seq<Mm>, mapping: int): (r: State)
    requires Valid(st) && Listed(st.spt, list)
    ensures Valid(r)
    decreases |list|
  {
    if list == [] then st
    else
      ListedTail(st.spt, list);
      if Takes(list[0], mapping) then
        UnmappedValid(st, list[0].id);
        RemovedFrom(Unmapped(st, list[0].id), list[1..], mapping)
      else RemovedFrom(st, list[1..], mapping)
  }

  lemma RemovedSplit(st: State, list: seq<Mm>, mapping: int)
    requires Valid(st) && Listed(st.spt, list) && list != []
    ensures Listed(st.spt, list[1..])
    ensures Takes(list[0], mapping) ==>
      && list[0].id in st.spt && st.spt[list[0].id].kind == MMAP
      && var s := Unmapped(st, list[0].id);
         Valid(s) && Listed(s.spt, list[1..]) && RemovedFrom(st, list, mapping) == RemovedFrom(s, list[1..], mapping)
    ensures !Takes(list[0], mapping) ==> RemovedFrom(st, list, mapping) == RemovedFrom(st, list[1..], mapping)
  {
    hide Valid, Unmapped, DistinctPages;
    ListedTail(st.spt, list);
    if Takes(list[0], mapping) {
      UnmappedValid(st, list[0].id);
    }
  }

  /** The byte `x` of file `f` belongs to a page that is being unmapped. */
  ghost predicate Covered(st: State, list: seq<Mm>, mapping: int, f: nat, x: nat) {
    exists id :: id in TakenIds(list, mapping) && id in st.spt && Backs(st.spt[id], f, x)
  }

  predicate Backs(e: Spte, f: nat, x: nat) {
    e.file == f && e.offset <= x < e.offset + e.readBytes
  }

  lemma {:induction false} TakenAreListed(spt: map<PageId, Spte>, list: seq<Mm>, mapping: int)
    requires Listed(spt, list)
    ensures forall id :: id in TakenIds(list, mapping) ==> id in spt && spt[id].kind == MMAP
    ensures list != [] && !list[0].clash ==> list[0].id !in TakenIds(list[1..], mapping)
    decreases |list|
  {
    if list != [] {
      ListedTail(spt, list);
      TakenAreListed(spt, list[1..], mapping);
      if !list[0].clash {
        TakenAreListed(spt - {list[0].id}, list[1..], mapping);
      }
    }
  }

  lemma TakenSplit(list: seq<Mm>, mapping: int)
    requires list != []
    ensures TakenIds(list, mapping) == (if Takes(list[0], mapping) then {list[0].id} else {}) + TakenIds(list[1..], mapping)
  {
  }

  /** The pages that lose their entries are those listed for the mapping, or all that are listed. */
  lemma {:induction false} TakenByMapid(list: seq<Mm>, mapping: int)
    ensures forall id :: id in TakenIds(list, mapping) <==>
      exists mm :: mm in list && !mm.clash && mm.id == id && (mm.mapid == mapping || mapping == -1)
  {
    if list != [] {
      TakenByMapid(list[1..], mapping);
      assert list == [list[0]] + list[1..];
    }
  }

  lemma {:induction false} RemovedSpt(st: State, list: seq<Mm>, mapping: int)
    requires Valid(st) && Listed(st.spt, list)
    ensures RemovedFrom(st, list, mapping).spt == st.spt - TakenIds(list, mapping)
    decreases |list|
  {
    if list == [] {
      assert st.spt - {} == st.spt;
    } else {
      hide Valid, TakenIds, Listed, RemovedFrom, Unmapped;
      RemovedSplit(st, list, mapping);
      TakenSplit(list, mapping);
      if Takes(list[0], mapping) {
        UnmappedValid(st, list[0].id);
        RemovedSpt(Unmapped(st, list[0].id), list[1..], mapping);
        assert (st.spt - {list[0].id}) - TakenIds(list[1..], mapping) == st.spt - TakenIds(list, mapping);
      } else {
        RemovedSpt(st, list[1..], mapping);
      }
    }
  }

  lemma {:induction false} RemovalKeepsView(st: State, list: seq<Mm>, mapping: int, b: PageId)
    requires Inv(st) && Listed(st.spt, list)
    ensures var r := RemovedFrom(st, list, mapping);
      Inv(r) && (b in st.spt && b !in TakenIds(list, mapping) ==> b in r.spt && View(r, b) == View(st, b))
    decreases |list|
  {
    if list != [] {
      hide Valid, CleanOk, SharingOk, View, Unmapped, TakenIds, Listed, RemovedFrom;
      RemovedSplit(st, list, mapping);
      TakenSplit(list, mapping);
      if Takes(list[0], mapping) {
        UnmappedInv(st, list[0].id);
        RemovalKeepsView(Unmapped(st, list[0].id), list[1..], mapping, b);
      } else {
        RemovalKeepsView(st, list[1..], mapping, b);
      }
    }
  }

  /** Unmapping takes away exactly the pages of the mapping: every other page keeps its entry and reads
      the same. */
  lemma RemovalKeepsOthers(st: State, list: seq<Mm>, mapping: int)
    requires Inv(st) && Listed(st.spt, list)
    ensures var r := RemovedFrom(st, list, mapping);
      Inv(r) && r.spt == st.spt - TakenIds(list, mapping) && forall b :: b in r.spt ==> View(r, b) == View(st, b)
    ensures forall id :: id in RemovedFrom(st, list, mapping).spt <==>
      id in st.spt && !(exists mm :: mm in list && !mm.clash && mm.id == id && (mm.mapid == mapping || mapping == -1))
  {
    hide Valid, CleanOk, SharingOk, View, TakenIds, Listed, RemovedFrom;
    TakenByMapid(list, mapping);
    RemovedSpt(st, list, mapping);
    var r := RemovedFrom(st, list, mapping);
    RemovalKeepsView(st, list, mapping, PageId(0, 0));
    forall b | b in r.spt ensures View(r, b) == View(st, b) {
      RemovalKeepsView(st, list, mapping, b);
    }
  }

  lemma UncoveredTail(st: State, list: seq<Mm>, mapping: int, f: nat, x: nat, s: State)
    requires list != [] && !Covered(st, list, mapping, f, x)
    requires forall id :: id in s.spt ==> id in st.spt && s.spt[id] == st.spt[id]
    ensures !Covered(s, list[1..], mapping, f, x)
    ensures Takes(list[0], mapping) && list[0].id in st.spt ==> !Backs(st.spt[list[0].id], f, x)
  {
    TakenSplit(list, mapping);
    hide TakenIds, Backs;
  }

  lemma UnmappedByte(st: State, id: PageId, f: nat, x: nat)
    requires Inv(st) && id in st.spt && st.spt[id].kind == MMAP && f in st.files && x < |st.files[f]|
    ensures var s := Unmapped(st, id);
      f in s.files && |s.files[f]| == |st.files[f]| && (!Backs(st.spt[id], f, x) ==> s.files[f][x] == st.files[f][x])
  {
    ViewLength(st, id);
    hide Inv, View, Unmapped;
    UnmappedInv(st, id);
  }

  lemma ViewLength(st: State, id: PageId)
    requires Valid(st) && id in st.spt && st.spt[id].kind == MMAP
    ensures |View(st, id)| == st.spt[id].readBytes
  {
    hide Contents;
  }

  /** Bytes of files that no unmapped page covers stay, and so do the files' lengths. */
  lemma {:induction false} RemovalLeavesRest(st: State, list: seq<Mm>, mapping: int, f: nat, x: nat)
    requires Inv(st) && Listed(st.spt, list) && f in st.files && x < |st.files[f]|
    ensures var r := RemovedFrom(st, list, mapping); f in r.files && |r.files[f]| == |st.files[f]|
    ensures !Covered(st, list, mapping, f, x) ==> RemovedFrom(st, list, mapping).files[f][x] == st.files[f][x]
    decreases |list|
  {
    if list != [] {
      hide Valid, CleanOk, SharingOk, View, Unmapped, TakenIds, DistinctPages, Covered, Backs, OnlyBytesOf, FileHolds;
      ListedTail(st.spt, list);
      var s := if Takes(list[0], mapping) then Unmapped(st, list[0].id) else st;
      if Takes(list[0], mapping) {
        UnmappedInv(st, list[0].id);
        UnmappedByte(st, list[0].id, f, x);
      }
      if !Covered(st, list, mapping, f, x) {
        UncoveredTail(st, list, mapping, f, x, s);
      }
      RemovalLeavesRest(s, list[1..], mapping, f, x);
    }
  }

  lemma OwnRange(st: State, id: PageId, list: seq<Mm>, mapping: int, k: nat)
    requires SharingOk(st.spt) && id in st.spt && st.spt[id].kind == MMAP && k < st.spt[id].readBytes
    requires id !in TakenIds(list, mapping)
    requires forall b :: b in TakenIds(list, mapping) ==> b in st.spt && st.spt[b].kind == MMAP
    ensures !Covered(st.(spt := st.spt - {id}), list, mapping, st.spt[id].file, st.spt[id].offset + k)
  {
    forall b | b in TakenIds(list, mapping) ensures !Backs(st.spt[b], st.spt[id].file, st.spt[id].offset + k) {
      assert OwnBytes(st.spt, id, b);
    }
  }

  /** The round that unmaps a page leaves its bytes in the file. */
  lemma UnmappedHolds(st: State, id: PageId, k: nat)
    requires Inv(st) && id in st.spt && st.spt[id].kind == MMAP && k < st.spt[id].readBytes
    ensures var s := Unmapped(st, id); var e := st.spt[id];
      && e.file in s.files && e.offset + k < |s.files[e.file]| && k < |View(st, id)|
      && s.files[e.file][e.offset + k] == View(st, id)[k]
  {
    ViewLength(st, id);
    hide Inv, View, Unmapped, FileHolds;
    UnmappedInv(st, id);
    var e := st.spt[id];
    HoldsAt(st.files[e.file], Unmapped(st, id).files[e.file], e.offset, View(st, id), k);
  }

  lemma HoldsAt(before: seq<byte>, after: seq<byte>, offset: nat, view: seq<byte>, k: nat)
    requires FileHolds(before, after, offset, view) && k < |view|
    ensures offset + k < |after| && after[offset + k] == view[k]
  {
  }

  lemma HeadWritesBack(st: State, list: seq<Mm>, mapping: int, k: nat)
    requires Inv(st) && Listed(st.spt, list) && list != [] && Takes(list[0], mapping)
    requires k < st.spt[list[0].id].readBytes
    ensures var id := list[0].id; var s := Unmapped(st, id); var e := st.spt[id];
      && Inv(s) && Listed(s.spt, list[1..]) && k < |View(st, id)|
      && var r := RemovedFrom(s, list[1..], mapping);
         e.file in r.files && e.offset + k < |r.files[e.file]| && r.files[e.file][e.offset + k] == View(st, id)[k]
  {
    hide Valid, CleanOk, SharingOk, View, Unmapped, TakenIds, DistinctPages, Covered;
    var id := list[0].id;
    var s := Unmapped(st, id);
    ListedTail(st.spt, list);
    UnmappedInv(st, id);
    UnmappedHolds(st, id, k);
    TakenAreListed(st.spt, list[1..], mapping);
    TakenAreListed(st.spt, list, mapping);
    OwnRange(st, id, list[1..], mapping, k);
    CoverageSame(st, s, id, list[1..], mapping, st.spt[id].file, st.spt[id].offset + k);
    RemovalLeavesRest(s, list[1..], mapping, st.spt[id].file, st.spt[id].offset + k);
  }

  /** Unmapping leaves in the file, for every byte of every page of the mapping, the byte the page last
      held. */
  lemma {:induction false} RemovalWritesBack(st: State, list: seq<Mm>, mapping: int, id: PageId, k: nat)
    requires Inv(st) && Listed(st.spt, list) && id in TakenIds(list, mapping)
    requires id in st.spt && st.spt[id].kind == MMAP && k < st.spt[id].readBytes
    ensures var r := RemovedFrom(st, list, mapping); var e := st.spt[id];
      && e.file in r.files && e.offset + k < |r.files[e.file]| && k < |View(st, id)|
      && r.files[e.file][e.offset + k] == View(st, id)[k]
    decreases |list|
  {
    hide *;
    RemovalRound(st, list, mapping, id);
    if !Takes(list[0], mapping) {
      RemovalWritesBack(st, list[1..], mapping, id, k);
    } else if list[0].id == id {
      HeadWritesBack(st, list, mapping, k);
    } else {
      RemovalWritesBack(Unmapped(st, list[0].id), list[1..], mapping, id, k);
    }
  }

  lemma RemovalRound(st: State, list: seq<Mm>, mapping: int, id: PageId)
    requires Inv(st) && Listed(st.spt, list) && id in TakenIds(list, mapping) && id in st.spt
    ensures list != [] && Listed(st.spt, list[1..]) && Valid(st)
    ensures Takes(list[0], mapping) ==>
      && list[0].id in st.spt && st.spt[list[0].id].kind == MMAP
      && var s := Unmapped(st, list[0].id);
      && Inv(s) && Listed(s.spt, list[1..]) && RemovedFrom(st, list, mapping) == RemovedFrom(s, list[1..], mapping)
      && (id != list[0].id ==> id in TakenIds(list[1..], mapping) && id in s.spt && s.spt[id] == st.spt[id] && View(s, id) == View(st, id))
    ensures !Takes(list[0], mapping) ==>
      id in TakenIds(list[1..], mapping) && RemovedFrom(st, list, mapping) == RemovedFrom(st, list[1..], mapping)
  {
    assert list != [];
    hide Valid, CleanOk, SharingOk, View, Unmapped, TakenIds, Listed, RemovedFrom, OnlyBytesOf;
    RemovedSplit(st, list, mapping);
    TakenSplit(list, mapping);
    if Takes(list[0], mapping) {
      UnmappedInv(st, list[0].id);
    }
  }

  lemma CoverageSame(st: State, s: State, id: PageId, list: seq<Mm>, mapping: int, f: nat, x: nat)
    requires s.spt == st.spt - {id}
    ensures Covered(s, list, mapping, f, x) == Covered(st.(spt := st.spt - {id}), list, mapping, f, x)
  {
  }

  // ---------------------------------------------------------------- closing the files

  /** The files the loop closes, in order: `close` is the last mapping it met and `f` the file that is
      still open. */
  function Closes(list: seq<Mm>, mapping: int, close: nat, f: Option<nat>): seq<nat> {
    if list == [] then if f.Some? then [f.value] else []
    else if !Matches(list[0], mapping) || list[0].mapid == close then Closes(list[1..], mapping, close, f)
    else (if f.Some? then [f.value] else []) + Closes(list[1..], mapping, list[0].mapid, Some(list[0].handle))
  }

  /** Mapids never decrease along the list and start at 1; pages of one mapping, and only they, share a
      file. */
  predicate InOrder(list: seq<Mm>) {
    && (forall i, j :: 0 <= i <= j < |list| ==> list[i].mapid <= list[j].mapid)
    && (forall i, j :: 0 <= i < |list| && 0 <= j < |list| ==> (list[i].mapid == list[j].mapid <==> list[i].handle == list[j].handle))
    && (forall i :: 0 <= i < |list| ==> list[i].mapid >= 1)
  }

  predicate HasHandle(list: seq<Mm>, mapping: int, h: nat) {
    exists i :: 0 <= i < |list| && Matches(list[i], mapping) && list[i].handle == h
  }

  predicate Once(s: seq<nat>) {
    forall i, j :: 0 <= i < j < |s| ==> s[i] != s[j]
  }

  lemma HandleSplit(list: seq<Mm>, mapping: int, h: nat)
    requires list != []
    ensures HasHandle(list, mapping, h) <==> (Matches(list[0], mapping) && list[0].handle == h) || HasHandle(list[1..], mapping, h)
  {
    if HasHandle(list, mapping, h) {
      var i :| 0 <= i < |list| && Matches(list[i], mapping) && list[i].handle == h;
      assert i > 0 ==> list[1..][i - 1] == list[i];
    }
    if HasHandle(list[1..], mapping, h) {
      var i :| 0 <= i < |list[1..]| && Matches(list[1..][i], mapping) && list[1..][i].handle == h;
      assert list[i + 1].handle == h;
    }
  }

  /** What is known between two rounds: the open file is that of mapping `close`, and no earlier mapping
      comes again. */
  predicate Between(list: seq<Mm>, close: nat, f: Option<nat>) {
    && InOrder(list)
    && (forall i :: 0 <= i < |list| ==> close <= list[i].mapid)
    && (f.Some? ==> forall i :: 0 <= i < |list| ==> (list[i].mapid == close <==> list[i].handle == f.value))
    && (f == None ==> close == 0)
  }

  lemma BetweenNext(list: seq<Mm>, mapping: int, close: nat, f: Option<nat>)
    requires Between(list, close, f) && list != []
    ensures Between(list[1..], close, f)
    ensures Between(list[1..], list[0].mapid, Some(list[0].handle))
  {
  }

  /** The file that is open between two rounds is not one that a later mapping has. */
  lemma OpenFileIsOld(list: seq<Mm>, mapping: int, close: nat, f: Option<nat>)
    requires Between(list, close, f) && list != [] && f.Some? && list[0].mapid != close
    ensures list[0].handle != f.value && !HasHandle(list[1..], mapping, f.value)
  {
    forall i | 0 <= i < |list[1..]| ensures list[1..][i].handle != f.value {
      assert list[0].mapid <= list[i + 1].mapid;
    }
  }

  lemma {:induction false} ClosesExactly(list: seq<Mm>, mapping: int, close: nat, f: Option<nat>)
    requires Between(list, close, f)
    ensures var c := Closes(list, mapping, close, f);
      Once(c) && forall h :: h in c <==> f == Some(h) || HasHandle(list, mapping, h)
    decreases |list|
  {
    if list != [] {
      BetweenNext(list, mapping, close, f);
      forall h ensures HasHandle(list, mapping, h) <==>
        (Matches(list[0], mapping) && list[0].handle == h) || HasHandle(list[1..], mapping, h)
      {
        HandleSplit(list, mapping, h);
      }
      if !Matches(list[0], mapping) || list[0].mapid == close {
        assert Matches(list[0], mapping) ==> f == Some(list[0].handle);
        hide Between, HasHandle;
        ClosesExactly(list[1..], mapping, close, f);
      } else {
        if f.Some? {
          OpenFileIsOld(list, mapping, close, f);
        }
        hide Between, HasHandle;
        ClosesExactly(list[1..], mapping, list[0].mapid, Some(list[0].handle));
      }
    }
  }

  /** Removing a mapping, or all of them, closes each mapping's file exactly once. */
  lemma ClosedExactlyOnce(list: seq<Mm>, mapping: int)
    requires InOrder(list)
    ensures var c := Closes(list, mapping, 0, None);
      Once(c) && forall h :: h in c <==> HasHandle(list, mapping, h)
  {
    ClosesExactly(list, mapping, 0, None);
  }

  /** The files are those of the mapping, or with -1 of all mappings, each once. */
  ghost predicate FilesOf(log: seq<nat>, list: seq<Mm>, mapping: int) {
    && (forall i, j :: 0 <= i < j < |log| ==> log[i] != log[j])
    && (forall h :: h in log <==> exists mm :: mm in list && mm.handle == h && (mm.mapid == mapping || mapping == -1))
  }

  /** Removal closes the files of what it removes, each once. */
  lemma ClosedByMapid(list: seq<Mm>, mapping: int)
    requires InOrder(list)
    ensures FilesOf(Closes(list, mapping, 0, None), list, mapping)
  {
    ClosedExactlyOnce(list, mapping);
    var c := Closes(list, mapping, 0, None);
    forall h ensures HasHandle(list, mapping, h) <==> exists mm :: mm in list && mm.handle == h && (mm.mapid == mapping || mapping == -1) {
      if HasHandle(list, mapping, h) {
        var i :| 0 <= i < |list| && Matches(list[i], mapping) && list[i].handle == h;
        assert list[i] in list;
      }
    }
    hide Closes, InOrder, HasHandle;
  }

  /** `part` is `whole` with some elements left out. */
  predicate Subsequence(part: seq<Mm>, whole: seq<Mm>) {
    part == [] || (whole != [] && ((part[0] == whole[0] && Subsequence(part[1..], whole[1..])) || Subsequence(part, whole[1..])))
  }

  /** The list keeps, in order, exactly the pages of other mappings; -1 empties it. */
  lemma {:induction false} RemainingByMapid(list: seq<Mm>, mapping: int)
    ensures forall mm :: mm in Remaining(list, mapping) <==> mm in list && mm.mapid != mapping && mapping != -1
    ensures Subsequence(Remaining(list, mapping), list)
    ensures mapping == -1 ==> Remaining(list, mapping) == []
  {
    if list != [] {
      RemainingByMapid(list[1..], mapping);
      assert list == [list[0]] + list[1..];
      var rest := Remaining(list[1..], mapping);
      assert ([list[0]] + rest)[1..] == rest && [] + rest == rest;
    }
  }

  /** Without the order it can fail: two mappings whose pages alternate on the list have a file closed twice. */
  lemma AlternatingClosesTwice()
    ensures exists list: seq<Mm> :: !InOrder(list) && !Once(Closes(list, CLOSE_ALL, 0, None))
  {
    var a, b := PageId(0, 0), PageId(0, PGSIZE);
    var list := [Mm(1, a, false, 7), Mm(2, b, false, 8), Mm(1, a, false, 7)];
    assert list[0].mapid == 1 && list[1].mapid == 2 && list[2].mapid == 1;
    assert list[1..][1..] == [Mm(1, a, false, 7)] && list[1..][1..][1..] == [];
    assert Closes(list[1..][1..][1..], CLOSE_ALL, 1, Some(7)) == [7];
    assert Closes(list[1..][1..], CLOSE_ALL, 2, Some(8)) == [8, 7];
    assert Closes(list[1..], CLOSE_ALL, 1, Some(7)) == [7, 8, 7];
    var c := Closes(list, CLOSE_ALL, 0, None);
    assert c == [7, 8, 7] && c[0] == c[2];
  }

  // ---------------------------------------------------------------- mapping a file

  /** The `k`-th page of a mapping at `addr`; addresses wrap. */
  function MapPage(tid: nat, addr: word, k: nat): PageId {
    PageId(tid, (addr + k * PGSIZE) % ADDRESS_SPACE)
  }

  function PagesOf(len: nat): nat {
    (len + PGSIZE - 1) / PGSIZE
  }

  /** How many bytes of the file the `k`-th page takes. */
  function PageBytes(len: nat, k: nat): (n: nat)
    ensures n <= PGSIZE
  {
    if len <= k * PGSIZE then 0 else if len - k * PGSIZE < PGSIZE then len - k * PGSIZE else PGSIZE
  }

  function MapEntry(file: nat, len: nat, k: nat): Spte {
    Spte(MMAP, true, false, false, file, k * PGSIZE, PageBytes(len, k), PGSIZE - PageBytes(len, k), 0)
  }

  /** A supplemental table after the first `k` pages of a mapping were entered. */
  function WithMapped(spt: map<PageId, Spte>, tid: nat, addr: word, file: nat, len: nat, k: nat): map<PageId, Spte> {
    if k == 0 then spt else WithMapped(spt, tid, addr, file, len, k - 1)[MapPage(tid, addr, k - 1) := MapEntry(file, len, k - 1)]
  }

  /** A list of mapped pages after the first `k` pages of a mapping were added. */
  function WithMms(list: seq<Mm>, mapid: nat, tid: nat, addr: word, handle: nat, k: nat): seq<Mm> {
    if k == 0 then list else WithMms(list, mapid, tid, addr, handle, k - 1) + [Mm(mapid, MapPage(tid, addr, k - 1), false, handle)]
  }

  /** The offsets tile the file: every byte is in exactly one page of the mapping, at its own place. */
  lemma TilesFile(len: nat, b: nat)
    requires b < len
    ensures b / PGSIZE < PagesOf(len) && b % PGSIZE < PageBytes(len, b / PGSIZE)
    ensures MapEntry(0, len, b / PGSIZE).offset + b % PGSIZE == b
    ensures forall k: nat :: MapEntry(0, len, k).offset <= b < MapEntry(0, len, k).offset + PageBytes(len, k) ==> k == b / PGSIZE
  {
    var q := b / PGSIZE;
    assert b == q * PGSIZE + b % PGSIZE;
    forall k: nat | k * PGSIZE <= b < k * PGSIZE + PageBytes(len, k) ensures k == q {
      assert k * PGSIZE <= b < k * PGSIZE + PGSIZE;
    }
  }

  lemma PagesDiffer(tid: nat, addr: word, len: word, j: nat, k: nat)
    requires j < k < PagesOf(len)
    ensures MapPage(tid, addr, j) != MapPage(tid, addr, k)
  {
    assert k * PGSIZE < ADDRESS_SPACE;
    var d := (k - j) * PGSIZE;
    assert 0 < d < ADDRESS_SPACE && addr + k * PGSIZE == addr + j * PGSIZE + d;
    ModDiffers(addr + j * PGSIZE, d);
  }

  lemma ModDiffers(a: nat, d: nat)
    requires 0 < d < ADDRESS_SPACE
    ensures a % ADDRESS_SPACE != (a + d) % ADDRESS_SPACE
  {
  }

  lemma {:induction false} WithMappedKeys(spt: map<PageId, Spte>, tid: nat, addr: word, file: nat, len: nat, k: nat, id: PageId)
    ensures id in WithMapped(spt, tid, addr, file, len, k) <==> id in spt || exists j :: 0 <= j < k && MapPage(tid, addr, j) == id
  {
    if k > 0 {
      WithMappedKeys(spt, tid, addr, file, len, k - 1, id);
    }
  }

  /** The first `k` pages are not taken and each gets its own entry; no other entry changes. */
  lemma {:induction false} WithMappedEntries(spt: map<PageId, Spte>, tid: nat, addr: word, file: nat, len: word, k: nat, id: PageId)
    requires k <= PagesOf(len) && forall j :: 0 <= j < k ==> MapPage(tid, addr, j) !in spt
    ensures id in spt ==> id in WithMapped(spt, tid, addr, file, len, k) && WithMapped(spt, tid, addr, file, len, k)[id] == spt[id]
    ensures var m := WithMapped(spt, tid, addr, file, len, k);
      forall j :: 0 <= j < k ==> MapPage(tid, addr, j) in m && m[MapPage(tid, addr, j)] == MapEntry(file, len, j)
  {
    if k > 0 {
      WithMappedEntries(spt, tid, addr, file, len, k - 1, id);
      forall j | 0 <= j < k - 1 ensures MapPage(tid, addr, j) != MapPage(tid, addr, k - 1) {
        PagesDiffer(tid, addr, len, j, k - 1);
      }
      assert MapPage(tid, addr, k - 1) !in spt;
    }
  }

  // ---------------------------------------------------------------- what a new mapping reads as

  /** No entry is backed by the file. */
  predicate Unbacked(spt: map<PageId, Spte>, file: nat) {
    forall id :: id in spt && spt[id].kind != SWAP ==> spt[id].file != file
  }

  /** Old entries stay, new ones are unloaded pages of the file. */
  ghost predicate Grown(spt: map<PageId, Spte>, grown: map<PageId, Spte>, file: nat, len: nat) {
    && (forall id :: id in spt ==> id in grown && grown[id] == spt[id])
    && (forall id :: id in grown && id !in spt ==> IsMapEntry(grown[id], file, len))
  }

  predicate IsMapEntry(e: Spte, file: nat, len: nat) {
    && e.kind == MMAP && e.writable && !e.loaded && e.file == file
    && e.readBytes + e.zeroBytes == PGSIZE && (e.readBytes == 0 || e.offset + e.readBytes <= len)
  }

  lemma WithMappedGrows(spt: map<PageId, Spte>, tid: nat, addr: word, file: nat, len: word, n: nat)
    requires n <= PagesOf(len) && forall j :: 0 <= j < n ==> MapPage(tid, addr, j) !in spt
    ensures Grown(spt, WithMapped(spt, tid, addr, file, len, n), file, len)
  {
    forall id | id in spt ensures id in WithMapped(spt, tid, addr, file, len, n) && WithMapped(spt, tid, addr, file, len, n)[id] == spt[id] {
      WithMappedEntries(spt, tid, addr, file, len, n, id);
    }
    forall id | id in WithMapped(spt, tid, addr, file, len, n) && id !in spt
      ensures IsMapEntry(WithMapped(spt, tid, addr, file, len, n)[id], file, len)
    {
      WithMappedKeys(spt, tid, addr, file, len, n, id);
      WithMappedEntries(spt, tid, addr, file, len, n, id);
    }
  }

  lemma GrownSwapOk(st: State, grown: map<PageId, Spte>, file: nat, len: nat)
    requires SwapOk(st.spt, st.used, st.disk) && Grown(st.spt, grown, file, len)
    ensures SwapOk(grown, st.used, st.disk)
  {
    forall a, b ensures OwnSlots(grown, a, b) {
      assert OwnSlots(st.spt, a, b);
    }
  }

  lemma GrownEntriesOk(st: State, grown: map<PageId, Spte>, file: nat, len: nat)
    requires EntriesOk(st.spt, st.files) && Grown(st.spt, grown, file, len) && file in st.files
    requires |st.files[file]| == len
    ensures EntriesOk(grown, st.files)
  {
  }

  lemma GrownMappingOk(st: State, grown: map<PageId, Spte>, file: nat, len: nat)
    requires MappingOk(st.spt, st.pd) && Grown(st.spt, grown, file, len)
    ensures MappingOk(grown, st.pd)
  {
  }

  lemma NewEntriesOk(st: State, tid: nat, addr: word, file: nat, len: word, n: nat)
    requires Valid(st) && file in st.files && |st.files[file]| == len
    requires n <= PagesOf(len) && forall j :: 0 <= j < n ==> MapPage(tid, addr, j) !in st.spt
    ensures Valid(st.(spt := WithMapped(st.spt, tid, addr, file, len, n)))
  {
    var spt := WithMapped(st.spt, tid, addr, file, len, n);
    WithMappedGrows(st.spt, tid, addr, file, len, n);
    hide WithMapped, TableOk, FramesOk, MapPage, PagesOf, SwapOk, EntriesOk, Grown;
    GrownSwapOk(st, spt, file, len);
    GrownEntriesOk(st, spt, file, len);
    assert MappingOk(spt, st.pd) by {
      GrownMappingOk(st, spt, file, len);
    }
  }

  /** Mapping a file that backs nothing else keeps the whole invariant, and every page of the mapping reads
      as its part of the file. */
  lemma MappingReadsFile(st: State, tid: nat, addr: word, file: nat, len: word, k: nat)
    requires Inv(st) && file in st.files && |st.files[file]| == len && Unbacked(st.spt, file) && k < PagesOf(len)
    requires forall j :: 0 <= j < PagesOf(len) ==> MapPage(tid, addr, j) !in st.spt
    ensures var r := st.(spt := WithMapped(st.spt, tid, addr, file, len, PagesOf(len))); var id := MapPage(tid, addr, k);
      && Inv(r) && id in r.spt
      && View(r, id) == st.files[file][k * PGSIZE..k * PGSIZE + PageBytes(len, k)]
  {
    var r := st.(spt := WithMapped(st.spt, tid, addr, file, len, PagesOf(len)));
    NewEntriesOk(st, tid, addr, file, len, PagesOf(len));
    NewEntriesShare(st, tid, addr, file, len);
    NewEntriesClean(st, tid, addr, file, len);
    WithMappedEntries(st.spt, tid, addr, file, len, PagesOf(len), MapPage(tid, addr, k));
    hide Valid, CleanOk, SharingOk, WithMapped, MapPage, PagesOf;
    UnloadedFileView(r, MapPage(tid, addr, k));
  }

  lemma NewEntriesShare(st: State, tid: nat, addr: word, file: nat, len: word)
    requires SharingOk(st.spt) && Unbacked(st.spt, file)
    requires forall j :: 0 <= j < PagesOf(len) ==> MapPage(tid, addr, j) !in st.spt
    ensures SharingOk(WithMapped(st.spt, tid, addr, file, len, PagesOf(len)))
  {
    var spt := WithMapped(st.spt, tid, addr, file, len, PagesOf(len));
    forall a, b ensures OwnBytes(spt, a, b) {
      WithMappedKeys(st.spt, tid, addr, file, len, PagesOf(len), a);
      WithMappedKeys(st.spt, tid, addr, file, len, PagesOf(len), b);
      WithMappedEntries(st.spt, tid, addr, file, len, PagesOf(len), a);
      WithMappedEntries(st.spt, tid, addr, file, len, PagesOf(len), b);
      assert OwnBytes(st.spt, a, b);
      hide WithMapped, MapPage, PagesOf;
    }
  }

  lemma NewEntriesClean(st: State, tid: nat, addr: word, file: nat, len: word)
    requires MappingOk(st.spt, st.pd) && CleanOk(st.spt, st.pd, st.ram, st.files)
    requires forall j :: 0 <= j < PagesOf(len) ==> MapPage(tid, addr, j) !in st.spt
    ensures CleanOk(WithMapped(st.spt, tid, addr, file, len, PagesOf(len)), st.pd, st.ram, st.files)
  {
    WithMappedGrows(st.spt, tid, addr, file, len, PagesOf(len));
    hide WithMapped, FileBytes, MapPage, PagesOf;
  }

  // ---------------------------------------------------------------- rolling back

  /** Removing pages that are not in memory only removes their entries. */
  lemma {:induction false} RemovesUnloaded(st: State, list: seq<Mm>, mapping: int)
    requires Valid(st) && Listed(st.spt, list) && forall id :: id in TakenIds(list, mapping) ==> id !in st.pd
    ensures RemovedFrom(st, list, mapping) == st.(spt := st.spt - TakenIds(list, mapping))
    decreases |list|
  {
    if list == [] {
      assert st.spt - {} == st.spt;
    } else {
      hide Valid, TakenIds, DistinctPages;
      ListedTail(st.spt, list);
      TakenSplit(list, mapping);
      if Takes(list[0], mapping) {
        UnmappedValid(st, list[0].id);
        RemovesUnloaded(Unmapped(st, list[0].id), list[1..], mapping);
        assert (st.spt - {list[0].id}) - TakenIds(list[1..], mapping) == st.spt - TakenIds(list, mapping);
      } else {
        RemovesUnloaded(st, list[1..], mapping);
      }
    }
  }

  lemma {:induction false} TakenConcat(a: seq<Mm>, b: seq<Mm>, mapping: int)
    ensures TakenIds(a + b, mapping) == TakenIds(a, mapping) + TakenIds(b, mapping)
  {
    if a == [] {
      assert a + b == b;
    } else {
      TakenConcat(a[1..], b, mapping);
      assert (a + b)[1..] == a[1..] + b;
    }
  }

  lemma RemainingSplit(list: seq<Mm>, mapping: int)
    requires list != []
    ensures Remaining(list, mapping) ==
      if Matches(list[0], mapping) then Remaining(list[1..], mapping) else [list[0]] + Remaining(list[1..], mapping)
  {
    assert [] + Remaining(list[1..], mapping) == Remaining(list[1..], mapping);
  }

  lemma {:induction false} RemainingConcat(a: seq<Mm>, b: seq<Mm>, mapping: int)
    ensures Remaining(a + b, mapping) == Remaining(a, mapping) + Remaining(b, mapping)
  {
    if a == [] {
      assert a + b == b;
    } else {
      hide *;
      RemainingConcat(a[1..], b, mapping);
      assert (a + b)[1..] == a[1..] + b && (a + b)[0] == a[0];
      RemainingSplit(a, mapping);
      RemainingSplit(a + b, mapping);
      Regroup([a[0]], Remaining(a[1..], mapping), Remaining(b, mapping));
    }
  }

  lemma Regroup(a: seq<Mm>, b: seq<Mm>, c: seq<Mm>)
    ensures a + (b + c) == (a + b) + c
  {
  }

  lemma {:induction false} OlderUntouched(list: seq<Mm>, mapid: nat)
    requires forall i :: 0 <= i < |list| ==> list[i].mapid < mapid
    ensures TakenIds(list, mapid) == {} && Remaining(list, mapid) == list
  {
    if list != [] {
      OlderUntouched(list[1..], mapid);
    }
  }

  /** The pages a mapping added are what its removal takes, and nothing older. */
  lemma {:induction false} NewTaken(list: seq<Mm>, mapid: nat, tid: nat, addr: word, handle: nat, k: nat)
    requires forall i :: 0 <= i < |list| ==> list[i].mapid < mapid
    ensures var l := WithMms(list, mapid, tid, addr, handle, k);
      && Remaining(l, mapid) == list
      && forall id :: id in TakenIds(l, mapid) <==> exists j :: 0 <= j < k && MapPage(tid, addr, j) == id
  {
    if k == 0 {
      OlderUntouched(list, mapid);
    } else {
      NewTaken(list, mapid, tid, addr, handle, k - 1);
      var l := WithMms(list, mapid, tid, addr, handle, k - 1);
      var last := [Mm(mapid, MapPage(tid, addr, k - 1), false, handle)];
      TakenConcat(l, last, mapid);
      RemainingConcat(l, last, mapid);
      assert TakenIds(last, mapid) == {MapPage(tid, addr, k - 1)} + TakenIds(last[1..], mapid);
      assert Remaining(last, mapid) == [];
      hide TakenIds, Remaining;
    }
  }

  /** Taking the new pages away again restores the table. */
  lemma RollbackRestores(spt: map<PageId, Spte>, tid: nat, addr: word, file: nat, len: word, k: nat, ids: set<PageId>)
    requires k <= PagesOf(len) && forall j :: 0 <= j < k ==> MapPage(tid, addr, j) !in spt
    requires forall id :: id in ids <==> exists j :: 0 <= j < k && MapPage(tid, addr, j) == id
    ensures WithMapped(spt, tid, addr, file, len, k) - ids == spt
  {
    var m := WithMapped(spt, tid, addr, file, len, k);
    hide WithMapped;
    forall id | id in m || id in spt ensures (id in m && id !in ids) == (id in spt) && (id in spt ==> m[id] == spt[id]) {
      WithMappedKeys(spt, tid, addr, file, len, k, id);
      WithMappedEntries(spt, tid, addr, file, len, k, id);
    }
  }

  lemma {:induction false} OlderStayOpen(list: seq<Mm>, rest: seq<Mm>, mapid: nat, close: nat, f: Option<nat>)
    requires forall i :: 0 <= i < |list| ==> list[i].mapid < mapid
    ensures Closes(list + rest, mapid, close, f) == Closes(rest, mapid, close, f)
  {
    if list == [] {
      assert list + rest == rest;
    } else {
      OlderStayOpen(list[1..], rest, mapid, close, f);
      assert (list + rest)[1..] == list[1..] + rest;
    }
  }

  lemma {:induction false} SameMappingClosesOnce(list: seq<Mm>, mapid: nat, handle: nat)
    requires mapid >= 1 && forall i :: 0 <= i < |list| ==> list[i].mapid == mapid
    ensures Closes(list, mapid, mapid, Some(handle)) == [handle]
  {
    if list != [] {
      SameMappingClosesOnce(list[1..], mapid, handle);
    }
  }

  // ---------------------------------------------------------------- the list a mapping leaves

  lemma {:induction false} WithMmsIs(list: seq<Mm>, mapid: nat, tid: nat, addr: word, handle: nat, k: nat)
    ensures var l := WithMms(list, mapid, tid, addr, handle, k);
      && |l| == |list| + k && l[..|list|] == list
      && forall at :: |list| <= at < |l| ==> l[at] == Mm(mapid, MapPage(tid, addr, at - |list|), false, handle)
  {
    if k > 0 {
      WithMmsIs(list, mapid, tid, addr, handle, k - 1);
    }
  }

  lemma NewListed(spt: map<PageId, Spte>, list: seq<Mm>, mapid: nat, tid: nat, addr: word, file: nat, len: word, handle: nat, k: nat)
    requires Listed(spt, list) && k <= PagesOf(len) && forall j :: 0 <= j < k ==> MapPage(tid, addr, j) !in spt
    ensures Listed(WithMapped(spt, tid, addr, file, len, k), WithMms(list, mapid, tid, addr, handle, k))
  {
    var l := WithMms(list, mapid, tid, addr, handle, k);
    var m := WithMapped(spt, tid, addr, file, len, k);
    WithMmsIs(list, mapid, tid, addr, handle, k);
    forall i | 0 <= i < |l| ensures l[i] == if i < |list| then list[i] else Mm(mapid, MapPage(tid, addr, i - |list|), false, handle) {
      assert i < |list| ==> l[i] == l[..|list|][i];
    }
    WithMappedGrows(spt, tid, addr, file, len, k);
    forall j | 0 <= j < k ensures MapPage(tid, addr, j) in m && m[MapPage(tid, addr, j)].kind == MMAP {
      WithMappedEntries(spt, tid, addr, file, len, k, MapPage(tid, addr, j));
    }
    forall i, j | 0 <= i < j < k ensures MapPage(tid, addr, i) != MapPage(tid, addr, j) {
      PagesDiffer(tid, addr, len, i, j);
    }
    hide WithMapped, WithMms, MapPage, PagesOf;
  }

  lemma NewInOrder(list: seq<Mm>, mapid: nat, tid: nat, addr: word, handle: nat, k: nat)
    requires InOrder(list) && mapid >= 1
    requires forall i :: 0 <= i < |list| ==> list[i].mapid < mapid && list[i].handle < handle
    ensures InOrder(WithMms(list, mapid, tid, addr, handle, k))
    ensures var l := WithMms(list, mapid, tid, addr, handle, k);
      forall i :: 0 <= i < |l| ==> l[i] in list || (l[i].mapid == mapid && l[i].handle == handle && !l[i].clash)
  {
    var l := WithMms(list, mapid, tid, addr, handle, k);
    WithMmsIs(list, mapid, tid, addr, handle, k);
    forall i | 0 <= i < |l| ensures l[i] == if i < |list| then list[i] else Mm(mapid, MapPage(tid, addr, i - |list|), false, handle) {
      assert i < |list| ==> l[i] == l[..|list|][i];
    }
    hide WithMms, MapPage;
  }

  /** What a page that could not be entered leaves on the list: itself, marked, if its place was taken, and
      nothing if there was no memory for its entries. */
  function LeftBehind(mapid: nat, id: PageId, handle: nat, clash: bool): seq<Mm> {
    if clash then [Mm(mapid, id, true, handle)] else []
  }

  /** Undoing a mapping that got as far as page `k`, which was taken already or found no memory: everything is
      as before, an older entry of that page included. The file opened for the mapping is closed once, if a
      page of the mapping is on the list to name it; a first page without memory leaves it open for good. */
  lemma Rollback(st: State, list: seq<Mm>, mapid: nat, tid: nat, addr: word, file: nat, len: word, handle: nat, k: nat, clash: bool)
    requires Valid(st) && Listed(st.spt, list) && file in st.files && |st.files[file]| == len
    requires mapid >= 1 && forall i :: 0 <= i < |list| ==> list[i].mapid < mapid
    requires k < PagesOf(len) && forall j :: 0 <= j < k ==> MapPage(tid, addr, j) !in st.spt
    ensures var s := st.(spt := WithMapped(st.spt, tid, addr, file, len, k));
      var l := WithMms(list, mapid, tid, addr, handle, k) + LeftBehind(mapid, MapPage(tid, addr, k), handle, clash);
      && Valid(s) && Listed(s.spt, l) && RemovedFrom(s, l, mapid) == st
      && Remaining(l, mapid) == list && Closes(l, mapid, 0, None) == if k > 0 || clash then [handle] else []
  {
    hide *;
    var s := st.(spt := WithMapped(st.spt, tid, addr, file, len, k));
    var added := WithMms(list, mapid, tid, addr, handle, k);
    var last := LeftBehind(mapid, MapPage(tid, addr, k), handle, clash);
    NewEntriesOk(st, tid, addr, file, len, k);
    NewListed(st.spt, list, mapid, tid, addr, file, len, handle, k);
    ListedWithClash(s.spt, added, mapid, MapPage(tid, addr, k), handle, clash);
    NewTaken(list, mapid, tid, addr, handle, k);
    TakenConcat(added, last, mapid);
    RemainingConcat(added, last, mapid);
    ClashTakesNothing(mapid, MapPage(tid, addr, k), handle, clash);
    RollbackCloses(list, mapid, tid, addr, handle, k, clash);
    NotMapped(st, tid, addr, k);
    RemovesUnloaded(s, added + last, mapid);
    RollbackRestores(st.spt, tid, addr, file, len, k, TakenIds(added, mapid));
  }

  lemma NotMapped(st: State, tid: nat, addr: word, k: nat)
    requires Valid(st) && forall j :: 0 <= j < k ==> MapPage(tid, addr, j) !in st.spt
    ensures forall j :: 0 <= j < k ==> MapPage(tid, addr, j) !in st.pd
  {
  }

  lemma ListedWithClash(spt: map<PageId, Spte>, list: seq<Mm>, mapid: nat, id: PageId, handle: nat, clash: bool)
    requires Listed(spt, list)
    ensures Listed(spt, list + LeftBehind(mapid, id, handle, clash))
  {
  }

  lemma ClashTakesNothing(mapid: nat, id: PageId, handle: nat, clash: bool)
    ensures var last := LeftBehind(mapid, id, handle, clash); TakenIds(last, mapid) == {} && Remaining(last, mapid) == []
  {
    var mm := Mm(mapid, id, true, handle);
    assert [mm][1..] == [];
  }

  lemma RollbackCloses(list: seq<Mm>, mapid: nat, tid: nat, addr: word, handle: nat, k: nat, clash: bool)
    requires mapid >= 1 && forall i :: 0 <= i < |list| ==> list[i].mapid < mapid
    ensures Closes(WithMms(list, mapid, tid, addr, handle, k) + LeftBehind(mapid, MapPage(tid, addr, k), handle, clash), mapid, 0, None)
      == if k > 0 || clash then [handle] else []
  {
    hide Closes, WithMms, MapPage;
    var added := WithMms(list, mapid, tid, addr, handle, k);
    var last := LeftBehind(mapid, MapPage(tid, addr, k), handle, clash);
    WithMmsIs(list, mapid, tid, addr, handle, k);
    var pages := added[|list|..];
    var rest := pages + last;
    assert added == list + pages && added + last == list + rest;
    forall i | 0 <= i < |rest| ensures rest[i].mapid == mapid && rest[i].handle == handle {
      if i < k {
        var at := |list| + i;
        assert rest[i] == pages[i] == added[at];
      }
    }
    OlderStayOpen(list, rest, mapid, 0, None);
    if rest != [] {
      FirstOpens(rest, mapid, handle);
    } else {
      NothingCloses(mapid);
    }
  }

  lemma NothingCloses(mapid: nat)
    ensures Closes([], mapid, 0, None) == []
  {
  }

  lemma FirstOpens(rest: seq<Mm>, mapid: nat, handle: nat)
    requires mapid >= 1 && rest != []
    requires forall i :: 0 <= i < |rest| ==> rest[i].mapid == mapid && rest[i].handle == handle
    ensures Closes(rest, mapid, 0, None) == [handle]
  {
    SameMappingClosesOnce(rest[1..], mapid, handle);
    assert [] + [handle] == [handle];
  }

  // ---------------------------------------------------------------- the list a removal leaves

  lemma PrependInOrder(list: seq<Mm>, rest: seq<Mm>)
    requires InOrder(list) && list != [] && InOrder(rest) && forall mm :: mm in rest ==> mm in list[1..]
    ensures InOrder([list[0]] + rest)
  {
    forall i | 0 <= i < |rest| ensures rest[i].mapid >= list[0].mapid && (rest[i].mapid == list[0].mapid <==> rest[i].handle == list[0].handle) {
      assert rest[i] in list[1..];
      var j :| 0 <= j < |list[1..]| && list[1..][j] == rest[i];
      assert list[j + 1] == rest[i];
    }
    var l := [list[0]] + rest;
    assert forall i :: 0 <= i < |l| ==> l[i] == if i == 0 then list[0] else rest[i - 1];
  }

  lemma PrependListed(spt: map<PageId, Spte>, kept: map<PageId, Spte>, list: seq<Mm>, rest: seq<Mm>)
    requires Listed(spt, list) && list != [] && Listed(kept, rest) && forall mm :: mm in rest ==> mm in list[1..]
    requires !list[0].clash ==> list[0].id in kept && kept[list[0].id] == spt[list[0].id]
    ensures Listed(kept, [list[0]] + rest)
  {
    forall i | 0 <= i < |rest| && !rest[i].clash && !list[0].clash ensures rest[i].id != list[0].id {
      assert rest[i] in list[1..];
      var j :| 0 <= j < |list[1..]| && list[1..][j] == rest[i];
      assert list[j + 1] == rest[i];
    }
    var l := [list[0]] + rest;
    assert forall i :: 0 <= i < |l| ==> l[i] == if i == 0 then list[0] else rest[i - 1];
  }

  lemma OrderTail(list: seq<Mm>)
    requires InOrder(list) && list != []
    ensures InOrder(list[1..])
  {
  }

  lemma {:induction false} RemainingAmong(list: seq<Mm>, mapping: int)
    ensures forall mm :: mm in Remaining(list, mapping) ==> mm in list && !Matches(mm, mapping)
  {
    if list != [] {
      RemainingAmong(list[1..], mapping);
      assert list == [list[0]] + list[1..];
    }
  }

  lemma {:induction false} RemainingInOrder(list: seq<Mm>, mapping: int)
    requires InOrder(list)
    ensures InOrder(Remaining(list, mapping))
    decreases |list|
  {
    if list != [] {
      hide Remaining, InOrder;
      OrderTail(list);
      RemainingSplit(list, mapping);
      RemainingInOrder(list[1..], mapping);
      RemainingAmong(list[1..], mapping);
      PrependInOrder(list, Remaining(list[1..], mapping));
    }
  }

  lemma HeadStays(spt: map<PageId, Spte>, list: seq<Mm>, mapping: int)
    requires Listed(spt, list) && list != [] && !list[0].clash && !Takes(list[0], mapping)
    ensures list[0].id in spt - TakenIds(list, mapping)
  {
    TakenAreListed(spt, list, mapping);
    TakenSplit(list, mapping);
  }

  /** What a removal leaves on the list still has its entries. */
  lemma {:induction false} RemainingListed(spt: map<PageId, Spte>, list: seq<Mm>, mapping: int)
    requires Listed(spt, list)
    ensures Listed(spt - TakenIds(list, mapping), Remaining(list, mapping))
    decreases |list|
  {
    if list != [] {
      hide Remaining, TakenIds, DistinctPages, Listed;
      ListedTail(spt, list);
      RemainingSplit(list, mapping);
      TakenSplit(list, mapping);
      if Takes(list[0], mapping) {
        RemainingListed(spt - {list[0].id}, list[1..], mapping);
        assert (spt - {list[0].id}) - TakenIds(list[1..], mapping) == spt - TakenIds(list, mapping);
      } else {
        RemainingListed(spt, list[1..], mapping);
        RemainingAmong(list[1..], mapping);
        if !list[0].clash {
          HeadStays(spt, list, mapping);
        }
        PrependListed(spt, spt - TakenIds(list, mapping), list, Remaining(list[1..], mapping));
      }
    }
  }
}
