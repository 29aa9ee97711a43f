/** What a new mapping means in terms of addresses and bytes: where each byte of the file is read. */
module MappedBytes {
  import opened Machine
  import opened PagingSpec
  import opened MmapSpec

  /** The page of address `addr + b`. */
  function PageAt(tid: nat, addr: word, b: nat): PageId {
    PageId(tid, PageStart((addr + b) % ADDRESS_SPACE))
  }

  /** Byte `b` of a file mapped at `addr` is read at address `addr + b`, from a writable page that writes back to
      the file. */
  lemma MappedByte(st: State, tid: nat, addr: word, file: nat, len: word, b: nat)
    requires Inv(st) && file in st.files && |st.files[file]| == len && Unbacked(st.spt, file) && b < len
    requires addr % PGSIZE == 0
    requires forall j :: 0 <= j < PagesOf(len) ==> MapPage(tid, addr, j) !in st.spt
    ensures var r := st.(spt := WithMapped(st.spt, tid, addr, file, len, PagesOf(len)));
      var id := PageAt(tid, addr, b);
      && Inv(r) && id in r.spt && r.spt[id].kind == MMAP && r.spt[id].writable && r.spt[id].file == file
      && !r.spt[id].loaded && !r.spt[id].pinned
      && b % PGSIZE < |View(r, id)| && View(r, id)[b % PGSIZE] == st.files[file][b]
  {
    hide Inv, Valid, View, WithMapped, MapPage, PagesOf, PageBytes, PageAt, Unbacked;
    var k := b / PGSIZE;
    assert b == k * PGSIZE + b % PGSIZE;
    BytePage(len, b);
    AddressPage(tid, addr, b);
    MappingReadsFile(st, tid, addr, file, len, k);
    WithMappedEntries(st.spt, tid, addr, file, len, PagesOf(len), MapPage(tid, addr, k));
    SliceAt(st.files[file], k * PGSIZE, PageBytes(len, k), b % PGSIZE);
  }

  lemma SliceAt(s: seq<byte>, from: nat, n: nat, i: nat)
    requires i < n && from + n <= |s|
    ensures s[from..from + n][i] == s[from + i]
  {
  }

  lemma BytePage(len: nat, b: nat)
    requires b < len
    ensures b / PGSIZE < PagesOf(len) && b % PGSIZE < PageBytes(len, b / PGSIZE)
    ensures b / PGSIZE * PGSIZE + PageBytes(len, b / PGSIZE) <= len
  {
  }

  lemma AddressPage(tid: nat, addr: word, b: nat)
    requires addr % PGSIZE == 0
    ensures MapPage(tid, addr, b / PGSIZE) == PageAt(tid, addr, b)
  {
    var p, k, i := addr / PGSIZE, b / PGSIZE, b % PGSIZE;
    assert addr + b == (p + k) * PGSIZE + i && ADDRESS_SPACE == 1048576 * PGSIZE;
    PageOfSum(p + k, i);
  }

  lemma PageOfSum(q: nat, i: nat)
    requires i < PGSIZE
    ensures (q * PGSIZE) % ADDRESS_SPACE == PageStart((q * PGSIZE + i) % ADDRESS_SPACE)
  {
    var n := 1048576;
    assert ADDRESS_SPACE == n * PGSIZE;
    var d, m := q / n, q % n;
    assert q * PGSIZE == d * ADDRESS_SPACE + m * PGSIZE;
    assert m * PGSIZE + i < ADDRESS_SPACE;
    assert q * PGSIZE + i == d * ADDRESS_SPACE + (m * PGSIZE + i);
    Remainder(d, m * PGSIZE);
    Remainder(d, m * PGSIZE + i);
  }

  lemma Remainder(d: nat, r: nat)
    requires r < ADDRESS_SPACE
    ensures (d * ADDRESS_SPACE + r) % ADDRESS_SPACE == r
  {
  }

  /** Mapping enters no page but those on which some byte of the file comes to lie. */
  lemma OnlyMappedPages(spt: map<PageId, Spte>, tid: nat, addr: word, file: nat, len: word, id: PageId)
    requires addr % PGSIZE == 0 && id !in spt && id in WithMapped(spt, tid, addr, file, len, PagesOf(len))
    ensures exists b :: 0 <= b < len && PageAt(tid, addr, b) == id
  {
    WithMappedKeys(spt, tid, addr, file, len, PagesOf(len), id);
    var k :| 0 <= k < PagesOf(len) && MapPage(tid, addr, k) == id;
    hide WithMapped, PageStart, PageAt;
    AddressPage(tid, addr, k * PGSIZE);
    assert k * PGSIZE < len && k * PGSIZE / PGSIZE == k;
  }
}
