/** The mmap and munmap system calls performed in place over the pager (userprog/syscall.c:266-302,
    userprog/process.c:634-700). */
module Mmap {
  import opened Machine
  import opened PagingSpec
  import opened MmapSpec
  import opened Vm

  const ERROR: int := -1

  /** The mappings of one process. `closed` logs the files closed, `nextHandle` numbers the files opened. */
  class Mappings {
    const pager: Pager
    const tid: nat
    var mapid: nat
    var mmaps: seq<Mm>
    var closed: seq<nat>
    var nextHandle: nat

    /** The list is in order, of mappings made so far, and each page on it has its entry. */
    ghost predicate Sound()
      reads this, pager, pager.swap.swapMap, pager.swap.sectors
    {
      pager.Sound() && Valid(pager.Now()) && ListSound(pager.spt, mmaps, mapid, nextHandle)
    }

    constructor (pager: Pager, tid: nat)
      requires pager.Sound() && Valid(pager.Now())
      ensures this.pager == pager && this.tid == tid && Sound() && mapid == 0 && mmaps == [] && closed == []
    {
      this.pager, this.tid := pager, tid;
      mapid, mmaps, closed, nextHandle := 0, [], [], 0;
    }

    /** `file_close`. */
    method Close(f: Option<nat>)
      modifies this`closed
      ensures closed == old(closed) + if f.Some? then [f.value] else []
    {
      if f.Some? {
        closed := closed + [f.value];
      }
    }

    /** `process_remove_mmap`: one pass over the list, taking away what matches. */
    method RemoveMmap(mapping: int)
      requires pager.Sound() && Valid(pager.Now()) && Listed(pager.spt, mmaps)
      modifies this`mmaps, this`closed, pager
      ensures pager.Now() == RemovedFrom(old(pager.Now()), old(mmaps), mapping) && Valid(pager.Now())
      ensures mmaps == Remaining(old(mmaps), mapping)
      ensures closed == old(closed) + Closes(old(mmaps), mapping, 0, None)
    {
      ghost var goal := Goal(RemovedFrom(pager.Now(), mmaps, mapping), Remaining(mmaps, mapping), closed + Closes(mmaps, mapping, 0, None));
      ghost var rest := mmaps;
      var i, close: nat, f: Option<nat> := 0, 0, None;
      hide Valid, Midway, Unmapped, RemovedFrom, Remaining, Closes, Listed;
      MidwayStarts(pager.Now(), mmaps, mapping, closed);
      while i < |mmaps|
        invariant i <= |mmaps| && rest == mmaps[i..] && pager.Sound()
        invariant Midway(goal, pager.Now(), mmaps[..i], rest, mapping, closed, close, f)
        decreases |rest|
      {
        var mm := mmaps[i];
        ghost var st, kept, log := pager.Now(), mmaps[..i], closed;
        Round(goal, st, kept, rest, mapping, log, close, f);
        if Matches(mm, mapping) {
          GiveUp(mm);
          mmaps := mmaps[..i] + mmaps[i + 1..];
          if mm.mapid != close {
            Close(f);
            close, f := mm.mapid, Some(mm.handle);
          }
        } else {
          i := i + 1;
          assert mmaps[..i] == kept + [mm];
        }
        rest := rest[1..];
      }
      MidwayEnds(goal, pager.Now(), mmaps[..i], mapping, closed, close, f);
      Close(f);
    }

    /** What a page of a mapping gives up: its frame, its changes and its entry; a clash has nothing. */
    method GiveUp(mm: Mm)
      requires pager.Sound() && Valid(pager.Now())
      requires !mm.clash ==> mm.id in pager.spt && pager.spt[mm.id].kind == MMAP
      modifies pager
      ensures pager.Now() == if mm.clash then old(pager.Now()) else Unmapped(old(pager.Now()), mm.id)
    {
      hide Valid, Unmapped;
      if !mm.clash {
        pager.UnmapPage(mm.id);
      }
    }

    /** `munmap` and, with -1, the end of a process: the pages of the mapping, or of all mappings, lose their
        entries, their bytes go to their files, the pages of other mappings stay listed in order, and each
        removed mapping's file is closed exactly once. */
    method Munmap(mapping: int)
      requires Sound()
      modifies this`mmaps, this`closed, pager
      ensures Sound() && pager.Now() == RemovedFrom(old(pager.Now()), old(mmaps), mapping)
      ensures mmaps == Remaining(old(mmaps), mapping)
      ensures OthersListed(old(mmaps), mmaps, mapping)
      ensures PagesGone(old(pager.spt), pager.spt, old(mmaps), mapping)
      ensures FilesClosed(old(closed), closed, old(mmaps), mapping)
    {
      hide Valid, Listed, InOrder, ListSound, RemovedFrom, Remaining, Closes, TakenIds, OthersListed, PagesGone, FilesClosed;
      SoundParts(pager.spt, mmaps, mapid, nextHandle);
      RemovedByMapid(pager.spt, mmaps, mapid, nextHandle, mapping, closed);
      RemainingSound(pager.spt, mmaps, mapid, nextHandle, mapping);
      RemovedSpt(pager.Now(), mmaps, mapping);
      RemoveMmap(mapping);
    }

    /** `add_mmap_page_tbl` (page.c:270): without memory for its two entries the page is nowhere. With it the page
        joins the list in any case; it is marked a clash, and the call fails, if its place in the table is taken. */
    method AddMmapPage(file: nat, handle: nat, ofs: nat, upage: word, readBytes: nat, zeroBytes: nat, memory: bool)
      returns (ok: bool)
      requires pager.Sound()
      modifies this`mmaps, pager`spt
      ensures var id := PageId(tid, upage);
        && ok == (memory && id !in old(pager.spt))
        && mmaps == old(mmaps) + (if ok then [Mm(mapid, id, false, handle)] else LeftBehind(mapid, id, handle, memory))
        && pager.Now() == if ok
          then old(pager.Now()).(spt := old(pager.spt)[id := Spte(MMAP, true, false, false, file, ofs, readBytes, zeroBytes, 0)])
          else old(pager.Now())
    {
      var id := PageId(tid, upage);
      if !memory {
        return false;
      }
      ok := id !in pager.spt;
      mmaps := mmaps + [Mm(mapid, id, !ok, handle)];
      if ok {
        pager.spt := pager.spt[id := Spte(MMAP, true, false, false, file, ofs, readBytes, zeroBytes, 0)];
      }
    }

    /** The loop of `mmap`: it enters the pages in order and stops at the first that is taken or finds no
        memory. */
    method EnterPages(file: nat, handle: nat, addr: word, len: word, memory: PageId -> bool) returns (ok: bool, ghost k: nat)
      requires pager.Sound()
      modifies this`mmaps, pager`spt
      ensures k <= PagesOf(len) && (forall j :: 0 <= j < k ==> Enterable(old(pager.spt), memory, MapPage(tid, addr, j)))
      ensures pager.Now() == old(pager.Now()).(spt := WithMapped(old(pager.spt), tid, addr, file, len, k))
      ensures ok ==> k == PagesOf(len) && mmaps == WithMms(old(mmaps), mapid, tid, addr, handle, k)
      ensures !ok ==> k < PagesOf(len) && !Enterable(old(pager.spt), memory, MapPage(tid, addr, k))
      ensures var id := MapPage(tid, addr, k);
        !ok ==> mmaps == WithMms(old(mmaps), mapid, tid, addr, handle, k) + LeftBehind(mapid, id, handle, memory(id))
    {
      var ofs: nat, upage: word, readBytes: word := 0, addr, len;
      k := 0;
      EnterStarts(pager.Now(), mmaps, mapid, tid, addr, file, len, handle, memory);
      hide EnterAt, MapPage, PagesOf, WithMapped, WithMms, Enterable, LeftBehind;
      while readBytes > 0
        invariant pager.Sound()
        invariant EnterAt(old(pager.Now()), old(mmaps), mapid, tid, addr, file, len, handle, memory,
                          k, ofs, upage, readBytes, pager.Now(), mmaps)
        decreases readBytes
      {
        EnterTrip(old(pager.Now()), old(mmaps), mapid, tid, addr, file, len, handle, memory, k, ofs, upage, readBytes, pager.Now(), mmaps);
        var pageReadBytes: word := if readBytes < PGSIZE then readBytes else PGSIZE;
        var pageZeroBytes: word := PGSIZE - pageReadBytes;
        var added := AddMmapPage(file, handle, ofs, upage, pageReadBytes, pageZeroBytes, memory(PageId(tid, upage)));
        if !added {
          return false, k;
        }
        readBytes := Sub32(readBytes, pageReadBytes);
        ofs := ofs + pageReadBytes;
        upage := Add32(upage, PGSIZE);
        k := k + 1;
      }
      EnterEnds(old(pager.Now()), old(mmaps), mapid, tid, addr, file, len, handle, memory, k, ofs, upage, pager.Now(), mmaps);
      ok := true;
    }

    /** `mmap`. `file` is the open file behind the descriptor, if any, `reopens` whether it can be opened
        again, and `memory` for which pages there is room for the list's and the table's entries. Whatever goes
        wrong while pages are entered, no page of the mapping remains; its file stays open if it was for want of
        memory for the first. */
    method Map(file: Option<nat>, addr: word, reopens: bool, memory: PageId -> bool) returns (r: int)
      requires Sound() && (file.Some? ==> file.value in pager.files && |pager.files[file.value]| < 0x8000_0000)
      modifies this, pager
      ensures Sound()
      ensures file == None || addr < 0x0804_8000 || addr >= PHYS_BASE || addr % PGSIZE != 0 || !reopens ==>
        r == -1 && pager.Now() == old(pager.Now()) && mmaps == old(mmaps) && closed == old(closed) && mapid == old(mapid)
      ensures file.Some? && 0x0804_8000 <= addr < PHYS_BASE && addr % PGSIZE == 0 && reopens && old(pager.files)[file.value] == [] ==>
        r == -1 && pager.Now() == old(pager.Now()) && mmaps == old(mmaps) && closed == old(closed) && mapid == old(mapid)
      ensures file.Some? && 0x0804_8000 <= addr < PHYS_BASE && addr % PGSIZE == 0 && reopens && old(pager.files)[file.value] != [] ==>
        var len: word := |old(pager.files)[file.value]|; var handle := old(nextHandle);
        && mapid == old(mapid) + 1
        && (r != -1 <==> forall k :: 0 <= k < PagesOf(len) ==> memory(MapPage(tid, addr, k)) && MapPage(tid, addr, k) !in old(pager.spt))
        && (r != -1 ==>
          r == mapid && closed == old(closed)
          && pager.Now() == old(pager.Now()).(spt := WithMapped(old(pager.spt), tid, addr, file.value, len, PagesOf(len)))
          && mmaps == WithMms(old(mmaps), mapid, tid, addr, handle, PagesOf(len)))
        && (r == -1 ==>
          && pager.Now() == old(pager.Now()) && mmaps == old(mmaps)
          && closed == old(closed) + if memory(MapPage(tid, addr, 0)) then [handle] else [])
    {
      if file == None || BadAddress(addr) || !reopens {
        return ERROR;
      }
      var f := file.value;
      var handle := nextHandle;
      nextHandle := nextHandle + 1;
      if pager.files[f] == [] {
        return ERROR;
      }
      r := MapReopened(f, handle, addr, memory);
    }

    /** `mmap` from its increment of `mapid` on. */
    method MapReopened(f: nat, handle: nat, addr: word, memory: PageId -> bool) returns (r: int)
      requires Sound() && f in pager.files && 0 < |pager.files[f]| < 0x8000_0000
      requires nextHandle == handle + 1 && ListSound(pager.spt, mmaps, mapid, handle)
      modifies this`mapid, this`mmaps, this`closed, pager
      ensures Sound() && mapid == old(mapid) + 1
      ensures var len: word := |old(pager.files)[f]|;
        && (r != ERROR <==> forall k :: 0 <= k < PagesOf(len) ==> Enterable(old(pager.spt), memory, MapPage(tid, addr, k)))
        && (r != ERROR ==>
          r == mapid && closed == old(closed)
          && pager.Now() == old(pager.Now()).(spt := WithMapped(old(pager.spt), tid, addr, f, len, PagesOf(len)))
          && mmaps == WithMms(old(mmaps), mapid, tid, addr, handle, PagesOf(len)))
        && (r == ERROR ==>
          && pager.Now() == old(pager.Now()) && mmaps == old(mmaps)
          && closed == old(closed) + if memory(MapPage(tid, addr, 0)) then [handle] else [])
    {
      hide Valid, Listed, InOrder, ListSound, RemovedFrom, Remaining, Closes, WithMapped, WithMms, MapPage, PagesOf;
      ghost var st, list, before := pager.Now(), mmaps, mapid;
      var len: word := |pager.files[f]|;
      SoundParts(st.spt, list, before, handle);
      mapid := mapid + 1;
      var ok, k := EnterPages(f, handle, addr, len, memory);
      if ok {
        NewEntriesOk(st, tid, addr, f, len, k);
        NewSound(st.spt, list, before, tid, addr, f, len, handle, k);
        return mapid;
      }
      Rollback(st, list, mapid, tid, addr, f, len, handle, k, memory(MapPage(tid, addr, k)));
      RemoveMmap(mapid);
      StaysSound(st.spt, list, before, handle);
      r := ERROR;
    }
  }

  /** Can a page be entered: is its place free, and is there memory for its entries? */
  predicate Enterable(spt: map<PageId, Spte>, memory: PageId -> bool, id: PageId) {
    memory(id) && id !in spt
  }

  /** The list is in order, of mappings made so far, and each page on it has its entry. */
  predicate ListSound(spt: map<PageId, Spte>, list: seq<Mm>, mapid: nat, nextHandle: nat) {
    && InOrder(list) && Listed(spt, list)
    && (forall mm :: mm in list ==> mm.mapid <= mapid && mm.handle < nextHandle && !mm.clash)
  }

  lemma SoundParts(spt: map<PageId, Spte>, list: seq<Mm>, mapid: nat, nextHandle: nat)
    requires ListSound(spt, list, mapid, nextHandle)
    ensures InOrder(list) && Listed(spt, list)
    ensures forall i :: 0 <= i < |list| ==> list[i].mapid < mapid + 1 && list[i].handle < nextHandle
  {
  }

  /** The list has lost the pages of the mapping, or with -1 all pages, and keeps the others in order. */
  ghost predicate OthersListed(before: seq<Mm>, after: seq<Mm>, mapping: int) {
    && (forall mm :: mm in after <==> mm in before && mm.mapid != mapping && mapping != -1)
    && Subsequence(after, before) && (mapping == -1 ==> after == [])
  }

  /** Exactly the listed pages of the mapping, or with -1 all listed pages, have lost their entries. */
  ghost predicate PagesGone(before: map<PageId, Spte>, after: map<PageId, Spte>, list: seq<Mm>, mapping: int) {
    forall id :: id in after <==>
      id in before && !(exists mm :: mm in list && mm.id == id && (mm.mapid == mapping || mapping == -1))
  }

  /** Exactly the files of the mapping, or with -1 of all mappings, were closed, each once. */
  ghost predicate FilesClosed(before: seq<nat>, after: seq<nat>, list: seq<Mm>, mapping: int) {
    before <= after && FilesOf(after[|before|..], list, mapping)
  }

  lemma RemovedByMapid(spt: map<PageId, Spte>, list: seq<Mm>, mapid: nat, nextHandle: nat, mapping: int, closed: seq<nat>)
    requires ListSound(spt, list, mapid, nextHandle)
    ensures OthersListed(list, Remaining(list, mapping), mapping)
    ensures PagesGone(spt, spt - TakenIds(list, mapping), list, mapping)
    ensures FilesClosed(closed, closed + Closes(list, mapping, 0, None), list, mapping)
  {
    hide *;
    NoClashes(spt, list, mapid, nextHandle);
    SoundParts(spt, list, mapid, nextHandle);
    ListByMapid(list, mapping);
    PagesByMapid(spt, list, mapping);
    FilesByMapid(closed, list, mapping);
  }

  lemma ListByMapid(list: seq<Mm>, mapping: int)
    ensures OthersListed(list, Remaining(list, mapping), mapping)
  {
    hide Remaining, Subsequence;
    RemainingByMapid(list, mapping);
  }

  lemma PagesByMapid(spt: map<PageId, Spte>, list: seq<Mm>, mapping: int)
    requires forall mm :: mm in list ==> !mm.clash
    ensures PagesGone(spt, spt - TakenIds(list, mapping), list, mapping)
  {
    hide TakenIds;
    TakenByMapid(list, mapping);
  }

  lemma FilesByMapid(closed: seq<nat>, list: seq<Mm>, mapping: int)
    requires InOrder(list)
    ensures FilesClosed(closed, closed + Closes(list, mapping, 0, None), list, mapping)
  {
    hide InOrder, Closes, FilesOf;
    ClosedByMapid(list, mapping);
    assert (closed + Closes(list, mapping, 0, None))[|closed|..] == Closes(list, mapping, 0, None);
  }

  lemma NoClashes(spt: map<PageId, Spte>, list: seq<Mm>, mapid: nat, nextHandle: nat)
    requires ListSound(spt, list, mapid, nextHandle)
    ensures forall mm :: mm in list ==> !mm.clash
  {
  }

  lemma RemainingSound(spt: map<PageId, Spte>, list: seq<Mm>, mapid: nat, nextHandle: nat, mapping: int)
    requires ListSound(spt, list, mapid, nextHandle)
    ensures ListSound(spt - TakenIds(list, mapping), Remaining(list, mapping), mapid, nextHandle)
  {
    RemainingInOrder(list, mapping);
    RemainingListed(spt, list, mapping);
    RemainingAmong(list, mapping);
    hide InOrder, Listed, Remaining, TakenIds;
  }

  lemma NewSound(spt: map<PageId, Spte>, list: seq<Mm>, mapid: nat, tid: nat, addr: word, file: nat, len: word, handle: nat, k: nat)
    requires ListSound(spt, list, mapid, handle) && k <= PagesOf(len)
    requires forall j :: 0 <= j < k ==> MapPage(tid, addr, j) !in spt
    ensures ListSound(WithMapped(spt, tid, addr, file, len, k), WithMms(list, mapid + 1, tid, addr, handle, k), mapid + 1, handle + 1)
  {
    SoundParts(spt, list, mapid, handle);
    NewListed(spt, list, mapid + 1, tid, addr, file, len, handle, k);
    NewInOrder(list, mapid + 1, tid, addr, handle, k);
    hide InOrder, Listed, WithMms, WithMapped, MapPage, PagesOf;
  }

  lemma StaysSound(spt: map<PageId, Spte>, list: seq<Mm>, mapid: nat, handle: nat)
    requires ListSound(spt, list, mapid, handle)
    ensures ListSound(spt, list, mapid + 1, handle + 1)
  {
    hide InOrder, Listed;
  }

  /** What a removal comes to: the state, the list and the closed files. */
  datatype Goal = Goal(st: State, list: seq<Mm>, closed: seq<nat>)

  /** Between two rounds: what was kept, what is left and what was closed still add up to the goal. */
  ghost predicate Midway(goal: Goal, st: State, kept: seq<Mm>, rest: seq<Mm>, mapping: int, closed: seq<nat>, close: nat, f: Option<nat>) {
    && Valid(st) && Listed(st.spt, rest)
    && goal.st == RemovedFrom(st, rest, mapping)
    && goal.list == kept + Remaining(rest, mapping)
    && goal.closed == closed + Closes(rest, mapping, close, f)
  }

  lemma MidwayStarts(st: State, list: seq<Mm>, mapping: int, closed: seq<nat>)
    requires Valid(st) && Listed(st.spt, list)
    ensures list[..0] == []
    ensures Midway(Goal(RemovedFrom(st, list, mapping), Remaining(list, mapping), closed + Closes(list, mapping, 0, None)),
                   st, list[..0], list, mapping, closed, 0, None)
  {
    hide Valid, Listed;
  }

  lemma MidwayEnds(goal: Goal, st: State, kept: seq<Mm>, mapping: int, closed: seq<nat>, close: nat, f: Option<nat>)
    requires Midway(goal, st, kept, [], mapping, closed, close, f)
    ensures goal == Goal(st, kept, closed + if f.Some? then [f.value] else []) && Valid(st)
  {
    hide Valid;
  }

  /** One round of the removal loop. */
  lemma Round(goal: Goal, st: State, kept: seq<Mm>, rest: seq<Mm>, mapping: int, closed: seq<nat>, close: nat, f: Option<nat>)
    requires Midway(goal, st, kept, rest, mapping, closed, close, f) && rest != []
    ensures Valid(st) && (!rest[0].clash ==> rest[0].id in st.spt && st.spt[rest[0].id].kind == MMAP)
    ensures !Matches(rest[0], mapping) ==> Midway(goal, st, kept + [rest[0]], rest[1..], mapping, closed, close, f)
    ensures Matches(rest[0], mapping) ==>
      var mm := rest[0];
      var s := if mm.clash then st else Unmapped(st, mm.id);
      if mm.mapid == close then Midway(goal, s, kept, rest[1..], mapping, closed, close, f)
      else Midway(goal, s, kept, rest[1..], mapping, closed + (if f.Some? then [f.value] else []), mm.mapid, Some(mm.handle))
  {
    hide Valid, Unmapped, Closes, Remaining, RemovedFrom, Listed;
    Unrolled(st, rest, mapping, close, f);
    assert kept + ([rest[0]] + Remaining(rest[1..], mapping)) == (kept + [rest[0]]) + Remaining(rest[1..], mapping);
    assert [] + Remaining(rest[1..], mapping) == Remaining(rest[1..], mapping);
  }

  /** One round of the removal loop. */
  lemma Unrolled(st: State, list: seq<Mm>, mapping: int, close: nat, f: Option<nat>)
    requires Valid(st) && Listed(st.spt, list) && list != []
    ensures Listed(st.spt, list[1..])
    ensures !list[0].clash ==> list[0].id in st.spt && st.spt[list[0].id].kind == MMAP
    ensures Takes(list[0], mapping) ==>
      var s := Unmapped(st, list[0].id);
      Valid(s) && Listed(s.spt, list[1..]) && RemovedFrom(st, list, mapping) == RemovedFrom(s, list[1..], mapping)
    ensures !Takes(list[0], mapping) ==> RemovedFrom(st, list, mapping) == RemovedFrom(st, list[1..], mapping)
    ensures Remaining(list, mapping) == (if Matches(list[0], mapping) then [] else [list[0]]) + Remaining(list[1..], mapping)
    ensures Closes(list, mapping, close, f) ==
      if !Matches(list[0], mapping) || list[0].mapid == close then Closes(list[1..], mapping, close, f)
      else (if f.Some? then [f.value] else []) + Closes(list[1..], mapping, list[0].mapid, Some(list[0].handle))
  {
    RemovedSplit(st, list, mapping);
    assert !list[0].clash ==> list[0].id in st.spt && st.spt[list[0].id].kind == MMAP;
    hide Valid, Unmapped, Listed, RemovedFrom;
  }

  /** The addresses `mmap` refuses. */
  predicate BadAddress(addr: word) {
    !IsUser(addr) || addr < USER_VADDR_BOTTOM || addr % PGSIZE != 0
  }

  /** The loop variables of `mmap` before page `k`. */
  predicate MapCursor(tid: nat, addr: word, len: word, k: nat, ofs: nat, upage: word, readBytes: word) {
    && ofs + readBytes == len && PageId(tid, upage) == MapPage(tid, addr, k)
    && (readBytes > 0 ==> ofs == k * PGSIZE && k < PagesOf(len)) && (readBytes == 0 ==> k == PagesOf(len))
  }

  lemma MapStarts(addr: word, len: word, tid: nat)
    ensures MapCursor(tid, addr, len, 0, 0, addr, len)
  {
  }

  lemma MapAdvances(tid: nat, addr: word, len: word, k: nat, ofs: nat, upage: word, readBytes: word)
    requires MapCursor(tid, addr, len, k, ofs, upage, readBytes) && readBytes > 0
    ensures k < PagesOf(len)
    ensures var r: word := if readBytes < PGSIZE then readBytes else PGSIZE;
      && ofs == k * PGSIZE && PageBytes(len, k) == r && 0 < r
      && Sub32(readBytes, r) == readBytes - r
      && MapCursor(tid, addr, len, k + 1, ofs + r, Add32(upage, PGSIZE), readBytes - r)
  {
    var r: word := if readBytes < PGSIZE then readBytes else PGSIZE;
    AddWraps(addr + k * PGSIZE, PGSIZE);
    assert addr + k * PGSIZE + PGSIZE == addr + (k + 1) * PGSIZE;
    LastPage(len, k);
  }

  /** `mmap`'s loop before page `k`, from state `st0` and list `list0`. */
  ghost predicate EnterAt(st0: State, list0: seq<Mm>, mapid: nat, tid: nat, addr: word, file: nat, len: word, handle: nat,
                          memory: PageId -> bool, k: nat, ofs: nat, upage: word, readBytes: word, st: State, list: seq<Mm>) {
    && k <= PagesOf(len) && MapCursor(tid, addr, len, k, ofs, upage, readBytes)
    && st == st0.(spt := WithMapped(st0.spt, tid, addr, file, len, k)) && list == WithMms(list0, mapid, tid, addr, handle, k)
    && forall j :: 0 <= j < k ==> Enterable(st0.spt, memory, MapPage(tid, addr, j))
  }

  lemma EnterStarts(st: State, list: seq<Mm>, mapid: nat, tid: nat, addr: word, file: nat, len: word, handle: nat,
                    memory: PageId -> bool)
    ensures EnterAt(st, list, mapid, tid, addr, file, len, handle, memory, 0, 0, addr, len, st, list)
  {
    MapStarts(addr, len, tid);
  }

  lemma EnterTrip(st0: State, list0: seq<Mm>, mapid: nat, tid: nat, addr: word, file: nat, len: word, handle: nat,
                  memory: PageId -> bool, k: nat, ofs: nat, upage: word, readBytes: word, st: State, list: seq<Mm>)
    requires EnterAt(st0, list0, mapid, tid, addr, file, len, handle, memory, k, ofs, upage, readBytes, st, list) && readBytes > 0
    ensures var r: word := if readBytes < PGSIZE then readBytes else PGSIZE; var id := PageId(tid, upage);
      && k < PagesOf(len) && id == MapPage(tid, addr, k) && Sub32(readBytes, r) < readBytes
      && st == st0.(spt := WithMapped(st0.spt, tid, addr, file, len, k)) && list == WithMms(list0, mapid, tid, addr, handle, k)
      && (forall j :: 0 <= j < k ==> Enterable(st0.spt, memory, MapPage(tid, addr, j)))
      && if memory(id) && id !in st.spt then
           EnterAt(st0, list0, mapid, tid, addr, file, len, handle, memory, k + 1, ofs + r, Add32(upage, PGSIZE), Sub32(readBytes, r),
             st.(spt := st.spt[id := Spte(MMAP, true, false, false, file, ofs, r, PGSIZE - r, 0)]), list + [Mm(mapid, id, false, handle)])
         else !Enterable(st0.spt, memory, id)
  {
    hide MapPage, PagesOf, PageBytes, WithMapped, WithMms;
    MapAdvances(tid, addr, len, k, ofs, upage, readBytes);
    NextTaken(st0.spt, tid, addr, file, len, k);
    OneMoreMapped(st0.spt, list0, mapid, tid, addr, file, len, handle, k, ofs, PageBytes(len, k));
  }

  lemma EnterEnds(st0: State, list0: seq<Mm>, mapid: nat, tid: nat, addr: word, file: nat, len: word, handle: nat,
                  memory: PageId -> bool, k: nat, ofs: nat, upage: word, st: State, list: seq<Mm>)
    requires EnterAt(st0, list0, mapid, tid, addr, file, len, handle, memory, k, ofs, upage, 0, st, list)
    ensures k == PagesOf(len) && forall j :: 0 <= j < k ==> Enterable(st0.spt, memory, MapPage(tid, addr, j))
    ensures st == st0.(spt := WithMapped(st0.spt, tid, addr, file, len, k)) && list == WithMms(list0, mapid, tid, addr, handle, k)
  {
    hide PagesOf, WithMapped, WithMms;
    MapEnds(tid, addr, len, k, ofs, upage);
  }

  lemma OneMoreMapped(spt: map<PageId, Spte>, list: seq<Mm>, mapid: nat, tid: nat, addr: word, file: nat, len: word, handle: nat,
                      k: nat, ofs: nat, readBytes: nat)
    requires ofs == k * PGSIZE && readBytes == PageBytes(len, k)
    ensures WithMapped(spt, tid, addr, file, len, k + 1) == WithMapped(spt, tid, addr, file, len, k)[MapPage(tid, addr, k) :=
      Spte(MMAP, true, false, false, file, ofs, readBytes, PGSIZE - readBytes, 0)]
    ensures WithMms(list, mapid, tid, addr, handle, k + 1)
      == WithMms(list, mapid, tid, addr, handle, k) + [Mm(mapid, MapPage(tid, addr, k), false, handle)]
  {
  }

  lemma LastPage(len: nat, k: nat)
    requires k * PGSIZE < len
    ensures len - k * PGSIZE <= PGSIZE ==> PagesOf(len) == k + 1
    ensures len - k * PGSIZE > PGSIZE ==> k + 1 < PagesOf(len)
  {
  }

  lemma MapEnds(tid: nat, addr: word, len: word, k: nat, ofs: nat, upage: word)
    requires MapCursor(tid, addr, len, k, ofs, upage, 0)
    ensures k == PagesOf(len)
  {
  }

  /** The next page is taken exactly if it was taken before the mapping began. */
  lemma NextTaken(spt: map<PageId, Spte>, tid: nat, addr: word, file: nat, len: word, k: nat)
    requires k < PagesOf(len)
    ensures MapPage(tid, addr, k) in WithMapped(spt, tid, addr, file, len, k) <==> MapPage(tid, addr, k) in spt
  {
    WithMappedKeys(spt, tid, addr, file, len, k, MapPage(tid, addr, k));
    forall j | 0 <= j < k ensures MapPage(tid, addr, j) != MapPage(tid, addr, k) {
      PagesDiffer(tid, addr, len, j, k);
    }
  }
}
