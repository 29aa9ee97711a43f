/** Loading a segment lazily (userprog/process.c:458) and eagerly (Original Files/process.c:529). */
module Loader {
  import opened Machine
  import opened PagingSpec

  /** The arguments of `load_segment` for one process. */
  datatype Segment = Segment(tid: nat, file: nat, ofs: word, upage: word, readBytes: word, zeroBytes: word, writable: bool)

  /** The three assertions `load_segment` starts with. */
  predicate Asserted(seg: Segment) {
    && Add32(seg.readBytes, seg.zeroBytes) % PGSIZE == 0
    && seg.upage % PGSIZE == 0
    && seg.ofs % PGSIZE == 0
  }

  function PageCount(seg: Segment): nat {
    (seg.readBytes + seg.zeroBytes) / PGSIZE
  }

  /** The `k`-th page of a segment; addresses wrap. */
  function SegId(seg: Segment, k: nat): PageId {
    PageId(seg.tid, (seg.upage + k * PGSIZE) % ADDRESS_SPACE)
  }

  function Min(a: nat, b: nat): nat {
    if a < b then a else b
  }

  /** The bytes of the segment's file part before its `k`-th page. */
  function ReadBefore(seg: Segment, k: nat): nat {
    Min(seg.readBytes, k * PGSIZE)
  }

  function PageRead(seg: Segment, k: nat): (r: nat)
    ensures r <= PGSIZE
  {
    ReadBefore(seg, k + 1) - ReadBefore(seg, k)
  }

  /** The entry the lazy loop makes for page `k`. */
  function SegEntry(seg: Segment, k: nat): Spte {
    Spte(FILE, seg.writable, false, false, seg.file, (seg.ofs + ReadBefore(seg, k)) % ADDRESS_SPACE,
         PageRead(seg, k), PGSIZE - PageRead(seg, k), 0)
  }

  /** A supplemental table after the first `k` pages were entered. */
  function WithPages(spt: map<PageId, Spte>, seg: Segment, k: nat): map<PageId, Spte> {
    if k == 0 then spt else WithPages(spt, seg, k - 1)[SegId(seg, k - 1) := SegEntry(seg, k - 1)]
  }

  /** A page of a loaded image. */
  datatype Image = Image(contents: Page, writable: bool)

  /** What a page holds after `n` bytes were read into it from file position `from`. */
  function PageImage(bytes: seq<byte>, from: nat, n: nat): Page
    requires n <= PGSIZE
  {
    if n > 0 && from + n <= |bytes| then bytes[from..from + n] + Zeros(PGSIZE - n) else Zeros(PGSIZE)
  }

  /** What the eager loop puts in page `k` when the file is `bytes`. */
  function EagerPage(seg: Segment, bytes: seq<byte>, k: nat): Image {
    Image(PageImage(bytes, seg.ofs + ReadBefore(seg, k), PageRead(seg, k)), seg.writable)
  }

  function WithImages(pd: map<PageId, Image>, seg: Segment, bytes: seq<byte>, k: nat): map<PageId, Image> {
    if k == 0 then pd else WithImages(pd, seg, bytes, k - 1)[SegId(seg, k - 1) := EagerPage(seg, bytes, k - 1)]
  }

  /** The page of the first `k` pages that is there already or comes twice, if there is one. */
  ghost predicate Clash(keys: set<PageId>, seg: Segment, k: nat) {
    SegId(seg, k) in keys || exists j :: 0 <= j < k && SegId(seg, j) == SegId(seg, k)
  }

  lemma {:induction false} WithPagesKeys(spt: map<PageId, Spte>, seg: Segment, k: nat, id: PageId)
    ensures id in WithPages(spt, seg, k) <==> id in spt || exists j :: 0 <= j < k && SegId(seg, j) == id
  {
    if k > 0 {
      WithPagesKeys(spt, seg, k - 1, id);
    }
  }

  lemma {:induction false} WithImagesKeys(pd: map<PageId, Image>, seg: Segment, bytes: seq<byte>, k: nat, id: PageId)
    ensures id in WithImages(pd, seg, bytes, k) <==> id in pd || exists j :: 0 <= j < k && SegId(seg, j) == id
  {
    if k > 0 {
      WithImagesKeys(pd, seg, bytes, k - 1, id);
    }
  }

  // ---------------------------------------------------------------- the two loops

  /** The loop variables of either `load_segment` before page `k`. */
  ghost predicate Cursor(seg: Segment, k: nat, upage: word, readBytes: word, zeroBytes: word) {
    && k <= PageCount(seg)
    && upage == SegId(seg, k).upage
    && readBytes == seg.readBytes - ReadBefore(seg, k)
    && zeroBytes == (PageCount(seg) - k) * PGSIZE - readBytes
  }

  lemma CursorStarts(seg: Segment)
    requires Asserted(seg)
    ensures Cursor(seg, 0, seg.upage, seg.readBytes, seg.zeroBytes)
  {
    WholePages(seg);
  }

  /** One trip of the loop; no subtraction wraps. */
  lemma CursorAdvances(seg: Segment, k: nat, upage: word, readBytes: word, zeroBytes: word)
    requires Asserted(seg) && Cursor(seg, k, upage, readBytes, zeroBytes) && (readBytes > 0 || zeroBytes > 0)
    ensures k < PageCount(seg)
    ensures var r: word := if readBytes < PGSIZE then readBytes else PGSIZE; var z: word := PGSIZE - r;
      && r == PageRead(seg, k)
      && Cursor(seg, k + 1, Add32(upage, PGSIZE), Sub32(readBytes, r), Sub32(zeroBytes, z))
  {
    var r: word := if readBytes < PGSIZE then readBytes else PGSIZE;
    assert zeroBytes >= PGSIZE - r;
    assert Sub32(readBytes, r) == readBytes - r && Sub32(zeroBytes, PGSIZE - r) == zeroBytes - (PGSIZE - r);
    AddWraps(seg.upage + k * PGSIZE, PGSIZE);
  }

  lemma CursorEnds(seg: Segment, k: nat, upage: word)
    requires Asserted(seg) && Cursor(seg, k, upage, 0, 0)
    ensures k == PageCount(seg)
  {
  }

  /** A process's supplemental table while its executable is entered lazily. */
  class LazyLoader {
    var spt: map<PageId, Spte>

    constructor (spt: map<PageId, Spte>)
      ensures this.spt == spt
    {
      this.spt := spt;
    }

    /** `add_file_page_tbl` (page.c:241): refused when the page has an entry. */
    method AddFilePage(seg: Segment, ofs: word, upage: word, readBytes: nat, zeroBytes: nat) returns (ok: bool)
      modifies this
      ensures ok == (PageId(seg.tid, upage) !in old(spt))
      ensures spt == if ok then old(spt)[PageId(seg.tid, upage) :=
          Spte(FILE, seg.writable, false, false, seg.file, ofs, readBytes, zeroBytes, 0)] else old(spt)
    {
      var id := PageId(seg.tid, upage);
      ok := id !in spt;
      if ok {
        spt := spt[id := Spte(FILE, seg.writable, false, false, seg.file, ofs, readBytes, zeroBytes, 0)];
      }
    }

    /** Lazy `load_segment`: enters every page, or the pages before the first clash. */
    method LoadSegment(seg: Segment) returns (ok: bool)
      requires Asserted(seg)
      modifies this
      ensures ok ==> spt == WithPages(old(spt), seg, PageCount(seg))
      ensures ok <==> forall k :: 0 <= k < PageCount(seg) ==> !Clash(old(spt).Keys, seg, k)
      ensures !ok ==> exists k :: 0 <= k < PageCount(seg) && Clash(old(spt).Keys, seg, k) && spt == WithPages(old(spt), seg, k)
    {
      hide Cursor, Asserted, PageCount, WithPages, LazyAt, Clash;
      var ofs: word, upage: word := seg.ofs, seg.upage;
      var readBytes: word, zeroBytes: word := seg.readBytes, seg.zeroBytes;
      ghost var k := 0;
      LazyStarts(seg, spt);
      while readBytes > 0 || zeroBytes > 0
        invariant k <= PageCount(seg) && LazyAt(seg, old(spt), k, ofs, upage, readBytes, zeroBytes, spt)
        decreases PageCount(seg) - k
      {
        LazyTrip(seg, old(spt), k, ofs, upage, readBytes, zeroBytes, spt);
        var pageReadBytes: word := if readBytes < PGSIZE then readBytes else PGSIZE;
        var pageZeroBytes: word := PGSIZE - pageReadBytes;
        var added := AddFilePage(seg, ofs, upage, pageReadBytes, pageZeroBytes);
        if !added {
          return false;
        }
        readBytes := Sub32(readBytes, pageReadBytes);
        zeroBytes := Sub32(zeroBytes, pageZeroBytes);
        ofs := Add32(ofs, pageReadBytes);
        upage := Add32(upage, PGSIZE);
        k := k + 1;
      }
      LazyEnds(seg, old(spt), k, ofs, upage, spt);
      ok := true;
    }
  }

  /** The lazy loop before page `k`. */
  ghost predicate LazyAt(seg: Segment, spt0: map<PageId, Spte>, k: nat, ofs: word, upage: word, readBytes: word, zeroBytes: word,
                         spt: map<PageId, Spte>) {
    && Cursor(seg, k, upage, readBytes, zeroBytes) && SegId(seg, k) == PageId(seg.tid, upage)
    && ofs == (seg.ofs + ReadBefore(seg, k)) % ADDRESS_SPACE
    && spt == WithPages(spt0, seg, k)
    && (forall j :: 0 <= j < k ==> !Clash(spt0.Keys, seg, j))
  }

  lemma LazyStarts(seg: Segment, spt0: map<PageId, Spte>)
    requires Asserted(seg)
    ensures LazyAt(seg, spt0, 0, seg.ofs, seg.upage, seg.readBytes, seg.zeroBytes, spt0)
  {
    CursorStarts(seg);
    StartOffset(seg);
  }

  lemma LazyTrip(seg: Segment, spt0: map<PageId, Spte>, k: nat, ofs: word, upage: word, readBytes: word, zeroBytes: word,
                 spt: map<PageId, Spte>)
    requires Asserted(seg) && LazyAt(seg, spt0, k, ofs, upage, readBytes, zeroBytes, spt)
    requires readBytes > 0 || zeroBytes > 0
    ensures k < PageCount(seg)
    ensures var r: word := if readBytes < PGSIZE then readBytes else PGSIZE; var z: word := PGSIZE - r;
      var id := PageId(seg.tid, upage);
      if id !in spt then
        LazyAt(seg, spt0, k + 1, Add32(ofs, r), Add32(upage, PGSIZE), Sub32(readBytes, r), Sub32(zeroBytes, z),
               spt[id := Spte(FILE, seg.writable, false, false, seg.file, ofs, r, z, 0)])
      else Clash(spt0.Keys, seg, k) && spt == WithPages(spt0, seg, k)
  {
    hide Cursor, Asserted, ReadBefore, PageRead, PageCount, Clash, SegId;
    CursorAdvances(seg, k, upage, readBytes, zeroBytes);
    NextOffset(seg, k);
    ClashIff(spt0, seg, k);
    var r: word := if readBytes < PGSIZE then readBytes else PGSIZE;
    CursorAt(seg, k + 1, Add32(upage, PGSIZE), Sub32(readBytes, r), Sub32(zeroBytes, PGSIZE - r));
  }

  lemma LazyEnds(seg: Segment, spt0: map<PageId, Spte>, k: nat, ofs: word, upage: word, spt: map<PageId, Spte>)
    requires Asserted(seg) && LazyAt(seg, spt0, k, ofs, upage, 0, 0, spt)
    ensures k == PageCount(seg) && spt == WithPages(spt0, seg, k)
    ensures forall j :: 0 <= j < k ==> !Clash(spt0.Keys, seg, j)
  {
    hide Asserted, PageCount, Clash, SegId, WithPages, ReadBefore;
    CursorEnds(seg, k, upage);
  }

  lemma CursorAt(seg: Segment, k: nat, upage: word, readBytes: word, zeroBytes: word)
    requires Cursor(seg, k, upage, readBytes, zeroBytes)
    ensures SegId(seg, k) == PageId(seg.tid, upage)
  {
  }

  lemma StartOffset(seg: Segment)
    ensures ReadBefore(seg, 0) == 0 && SegId(seg, 0) == PageId(seg.tid, seg.upage)
  {
  }

  lemma NextOffset(seg: Segment, k: nat)
    ensures ReadBefore(seg, k + 1) == ReadBefore(seg, k) + PageRead(seg, k)
    ensures PageRead(seg, k) < ADDRESS_SPACE &&
      Add32((seg.ofs + ReadBefore(seg, k)) % ADDRESS_SPACE, PageRead(seg, k)) == (seg.ofs + ReadBefore(seg, k + 1)) % ADDRESS_SPACE
  {
    AddWraps(seg.ofs + ReadBefore(seg, k), PageRead(seg, k));
  }

  lemma ClashIff(spt: map<PageId, Spte>, seg: Segment, k: nat)
    ensures SegId(seg, k) in WithPages(spt, seg, k) <==> Clash(spt.Keys, seg, k)
  {
    WithPagesKeys(spt, seg, k, SegId(seg, k));
  }

  lemma WholePages(seg: Segment)
    requires Asserted(seg)
    ensures PageCount(seg) * PGSIZE == seg.readBytes + seg.zeroBytes
  {
    var sum := seg.readBytes + seg.zeroBytes;
    assert sum % PGSIZE == 0 by {
      if sum >= ADDRESS_SPACE {
        assert Add32(seg.readBytes, seg.zeroBytes) == sum - ADDRESS_SPACE;
        assert ADDRESS_SPACE == 1048576 * PGSIZE;
      }
    }
  }

  /** A process image while its executable is read in eagerly. */
  class EagerLoader {
    var pd: map<PageId, Image>
    var pool: nat              // free pages of the user pool
    const bytes: seq<byte>     // the executable
    var pos: nat               // its file position

    constructor (pd: map<PageId, Image>, pool: nat, bytes: seq<byte>)
      ensures this.pd == pd && this.pool == pool && this.bytes == bytes
    {
      this.pd, this.pool, this.bytes, pos := pd, pool, bytes, 0;
    }

    /** `file_read`: what there is at the file position, at most `size` bytes. */
    method FileRead(size: nat) returns (data: seq<byte>)
      modifies this`pos
      ensures |data| <= size && pos == old(pos) + |data|
      ensures |data| == size <==> size == 0 || old(pos) + size <= |bytes|
      ensures |data| > 0 ==> pos <= |bytes| && data == bytes[old(pos)..pos]
    {
      if pos >= |bytes| {
        return [];
      }
      var n := Min(size, |bytes| - pos);
      data := bytes[pos..pos + n];
      pos := pos + n;
    }

    /** One trip of the eager loop: a page from the pool, filled from the file and installed, if the page
        directory finds memory. A failure gives the page back. */
    method LoadPage(id: PageId, readBytes: nat, zeroBytes: nat, writable: bool, installs: bool) returns (ok: bool)
      requires readBytes + zeroBytes == PGSIZE
      modifies this
      ensures ok <==> old(pool) > 0 && (readBytes == 0 || old(pos) + readBytes <= |bytes|) && id !in old(pd) && installs
      ensures !ok ==> pool == old(pool) && pd == old(pd)
      ensures ok ==> pool == old(pool) - 1 && pos == old(pos) + readBytes
      ensures ok ==> pd == old(pd)[id := Image(PageImage(bytes, old(pos), readBytes), writable)]
    {
      if pool == 0 {
        return false;
      }
      pool := pool - 1;
      var data := FileRead(readBytes);
      if |data| != readBytes {
        pool := pool + 1;
        return false;
      }
      if id in pd || !installs {
        pool := pool + 1;
        return false;
      }
      assert data + Zeros(zeroBytes) == PageImage(bytes, old(pos), readBytes);
      pd := pd[id := Image(data + Zeros(zeroBytes), writable)];
      ok := true;
    }

    /** Eager `load_segment`. It succeeds exactly when no page clashes, the pool is large enough, the file
        holds all the bytes to read and each page can be installed; the image is then the segment's. Otherwise
        it is the segment's up to the first page that could not be built. */
    method LoadSegment(seg: Segment, installs: PageId -> bool) returns (ok: bool)
      requires Asserted(seg)
      modifies this
      ensures ok <==> EagerPossible(seg, bytes, old(pd), old(pool), installs)
      ensures ok ==> pool == old(pool) - PageCount(seg) && pd == WithImages(old(pd), seg, bytes, PageCount(seg))
      ensures !ok ==> exists k :: StoppedAt(seg, bytes, old(pd), old(pool), installs, k, pool, pd)
    {
      hide Cursor, Asserted, PageCount, PageImage, WithImages, EagerPossible, EagerAt, StoppedAt, SegId;
      var upage: word, readBytes: word, zeroBytes: word := seg.upage, seg.readBytes, seg.zeroBytes;
      ghost var k := 0;
      EagerStarts(seg, bytes, pd, pool, installs);
      pos := seg.ofs;
      while readBytes > 0 || zeroBytes > 0
        invariant k <= PageCount(seg)
        invariant EagerAt(seg, bytes, old(pd), old(pool), installs, k, upage, readBytes, zeroBytes, pos, pool, pd)
        decreases PageCount(seg) - k
      {
        EagerTrip(seg, bytes, old(pd), old(pool), installs, k, upage, readBytes, zeroBytes, pos, pool, pd);
        var pageReadBytes: word := if readBytes < PGSIZE then readBytes else PGSIZE;
        var pageZeroBytes: word := PGSIZE - pageReadBytes;
        var loaded := LoadPage(PageId(seg.tid, upage), pageReadBytes, pageZeroBytes, seg.writable, installs(PageId(seg.tid, upage)));
        if !loaded {
          return false;
        }
        readBytes := Sub32(readBytes, pageReadBytes);
        zeroBytes := Sub32(zeroBytes, pageZeroBytes);
        upage := Add32(upage, PGSIZE);
        k := k + 1;
      }
      EagerEnds(seg, bytes, old(pd), old(pool), installs, k, upage, pos, pool, pd);
      ok := true;
    }
  }

  /** When the eager loop can build every page: none clashes, the pool is large enough, the file holds all
      the bytes to read and each page can be installed. */
  ghost predicate EagerPossible(seg: Segment, bytes: seq<byte>, pd: map<PageId, Image>, pool: nat, installs: PageId -> bool) {
    && (forall k :: 0 <= k < PageCount(seg) ==> !Clash(pd.Keys, seg, k) && installs(SegId(seg, k)))
    && PageCount(seg) <= pool
    && (seg.readBytes == 0 || seg.ofs + seg.readBytes <= |bytes|)
  }

  /** Can page `k` be built once those before it were? */
  ghost predicate Buildable(seg: Segment, bytes: seq<byte>, pd: map<PageId, Image>, pool: nat, installs: PageId -> bool, k: nat) {
    && !Clash(pd.Keys, seg, k) && installs(SegId(seg, k)) && k < pool
    && (PageRead(seg, k) == 0 || seg.ofs + ReadBefore(seg, k + 1) <= |bytes|)
  }

  /** What the eager loop leaves when page `k` is the first that it cannot build. */
  ghost predicate StoppedAt(seg: Segment, bytes: seq<byte>, pd0: map<PageId, Image>, pool0: nat, installs: PageId -> bool, k: nat,
                            pool: nat, pd: map<PageId, Image>) {
    && k < PageCount(seg) && !Buildable(seg, bytes, pd0, pool0, installs, k)
    && (forall j :: 0 <= j < k ==> Buildable(seg, bytes, pd0, pool0, installs, j))
    && k <= pool0 && pool == pool0 - k && pd == WithImages(pd0, seg, bytes, k)
  }

  /** The eager loop before page `k`. */
  ghost predicate EagerAt(seg: Segment, bytes: seq<byte>, pd0: map<PageId, Image>, pool0: nat, installs: PageId -> bool, k: nat,
                          upage: word, readBytes: word, zeroBytes: word, pos: nat, pool: nat, pd: map<PageId, Image>) {
    && Cursor(seg, k, upage, readBytes, zeroBytes) && SegId(seg, k) == PageId(seg.tid, upage)
    && k <= pool0 && pool == pool0 - k
    && pos == seg.ofs + ReadBefore(seg, k) && (ReadBefore(seg, k) == 0 || pos <= |bytes|)
    && pd == WithImages(pd0, seg, bytes, k)
    && (forall j :: 0 <= j < k ==> Buildable(seg, bytes, pd0, pool0, installs, j))
  }

  lemma EagerStarts(seg: Segment, bytes: seq<byte>, pd0: map<PageId, Image>, pool0: nat, installs: PageId -> bool)
    requires Asserted(seg)
    ensures EagerAt(seg, bytes, pd0, pool0, installs, 0, seg.upage, seg.readBytes, seg.zeroBytes, seg.ofs, pool0, pd0)
  {
    CursorStarts(seg);
    StartOffset(seg);
  }

  lemma EagerTrip(seg: Segment, bytes: seq<byte>, pd0: map<PageId, Image>, pool0: nat, installs: PageId -> bool, k: nat,
                  upage: word, readBytes: word, zeroBytes: word, pos: nat, pool: nat, pd: map<PageId, Image>)
    requires Asserted(seg) && EagerAt(seg, bytes, pd0, pool0, installs, k, upage, readBytes, zeroBytes, pos, pool, pd)
    requires readBytes > 0 || zeroBytes > 0
    ensures k < PageCount(seg)
    ensures var r: word := if readBytes < PGSIZE then readBytes else PGSIZE; var z: word := PGSIZE - r;
      var id := PageId(seg.tid, upage);
      if pool > 0 && (r == 0 || pos + r <= |bytes|) && id !in pd && installs(id) then
        EagerAt(seg, bytes, pd0, pool0, installs, k + 1, Add32(upage, PGSIZE), Sub32(readBytes, r), Sub32(zeroBytes, z), pos + r, pool - 1,
                pd[id := Image(PageImage(bytes, pos, r), seg.writable)])
      else !EagerPossible(seg, bytes, pd0, pool0, installs) && StoppedAt(seg, bytes, pd0, pool0, installs, k, pool, pd)
  {
    hide Cursor, Asserted, ReadBefore, PageRead, PageCount, Clash, SegId, PageImage;
    CursorAdvances(seg, k, upage, readBytes, zeroBytes);
    NextOffset(seg, k);
    ReadMonotone(seg, k + 1);
    ImageClashIff(pd0, seg, bytes, k);
    var r: word := if readBytes < PGSIZE then readBytes else PGSIZE;
    CursorAt(seg, k + 1, Add32(upage, PGSIZE), Sub32(readBytes, r), Sub32(zeroBytes, PGSIZE - r));
  }

  lemma EagerEnds(seg: Segment, bytes: seq<byte>, pd0: map<PageId, Image>, pool0: nat, installs: PageId -> bool, k: nat,
                  upage: word, pos: nat, pool: nat, pd: map<PageId, Image>)
    requires Asserted(seg) && EagerAt(seg, bytes, pd0, pool0, installs, k, upage, 0, 0, pos, pool, pd)
    ensures EagerPossible(seg, bytes, pd0, pool0, installs) && pool == pool0 - PageCount(seg)
    ensures pd == WithImages(pd0, seg, bytes, PageCount(seg))
  {
    hide Asserted, PageCount, Clash, SegId, WithImages, ReadBefore;
    CursorEnds(seg, k, upage);
    ReadAtMost(seg);
    forall j | 0 <= j < k ensures !Clash(pd0.Keys, seg, j) && installs(SegId(seg, j)) && j < pool0 {
      assert Buildable(seg, bytes, pd0, pool0, installs, j);
    }
  }

  lemma ReadMonotone(seg: Segment, k: nat)
    ensures ReadBefore(seg, k) <= seg.readBytes
  {
  }

  lemma ImageClashIff(pd: map<PageId, Image>, seg: Segment, bytes: seq<byte>, k: nat)
    ensures SegId(seg, k) in WithImages(pd, seg, bytes, k) <==> Clash(pd.Keys, seg, k)
  {
    WithImagesKeys(pd, seg, bytes, k, SegId(seg, k));
  }

  lemma ReadAtMost(seg: Segment)
    requires Asserted(seg)
    ensures ReadBefore(seg, PageCount(seg)) == seg.readBytes
  {
    WholePages(seg);
  }
}
