/** Program headers: which are accepted and where their bytes go (process.c:352-373, 401-442).
    All arithmetic is that of `uint32_t`. */
module Elf {
  import opened Machine

  /** The members of `struct Elf32_Phdr` that placement depends on. */
  datatype Phdr = Phdr(offset: word, vaddr: word, filesz: word, memsz: word)

  /** A segment as `load` hands it to `load_segment`. */
  datatype Placement = Placement(filePage: word, memPage: word, readBytes: word, zeroBytes: word)

  /** `validate_segment`. */
  predicate Validates(ph: Phdr, fileLength: word) {
    && ph.offset % PGSIZE == ph.vaddr % PGSIZE
    && ph.offset <= fileLength
    && ph.memsz >= ph.filesz
    && ph.memsz != 0
    && IsUser(ph.vaddr)
    && IsUser(Add32(ph.vaddr, ph.memsz))
    && Add32(ph.vaddr, ph.memsz) >= ph.vaddr
    && ph.vaddr >= PGSIZE
  }

  /** `ROUND_UP (x, PGSIZE)`. */
  function RoundUp32(x: word): word {
    Add32(x, PGSIZE - 1) / PGSIZE * PGSIZE
  }

  /** The placement computed by `load` for a loadable header. */
  function Place(ph: Phdr): Placement {
    var pageOffset: word := ph.vaddr % PGSIZE;
    var readBytes: word := if ph.filesz > 0 then Add32(pageOffset, ph.filesz) else 0;
    var total := RoundUp32(Add32(pageOffset, ph.memsz));
    Placement(PageStart(ph.offset), PageStart(ph.vaddr), readBytes, Sub32(total, readBytes))
  }

  /** The 32-bit checks mean what they are for: the region is non-empty, contains its file part,
      stays clear of page 0 and ends below the kernel, counted without wrapping. */
  lemma ValidatesMeans(ph: Phdr, fileLength: word)
    ensures Validates(ph, fileLength) <==>
      && ph.offset % PGSIZE == ph.vaddr % PGSIZE && ph.offset <= fileLength
      && 0 < ph.memsz && ph.filesz <= ph.memsz
      && PGSIZE <= ph.vaddr && ph.vaddr + ph.memsz < PHYS_BASE
  {
    if ph.vaddr + ph.memsz >= ADDRESS_SPACE {
      assert Add32(ph.vaddr, ph.memsz) == ph.vaddr + ph.memsz - ADDRESS_SPACE;
    } else {
      assert Add32(ph.vaddr, ph.memsz) == ph.vaddr + ph.memsz;
    }
  }

  lemma RoundUpExact(x: word)
    requires x <= ADDRESS_SPACE - PGSIZE
    ensures x <= RoundUp32(x) < x + PGSIZE && RoundUp32(x) % PGSIZE == 0
  {
    assert Add32(x, PGSIZE - 1) == x + PGSIZE - 1;
    var q := (x + PGSIZE - 1) / PGSIZE;
    assert RoundUp32(x) == q * PGSIZE;
  }

  /** No count of an accepted header wraps: the bytes to read are the page offset plus the file
      size, read and zeroed bytes fill whole pages that cover the region, and those pages stay
      at or below PHYS_BASE. */
  lemma PlacementFits(ph: Phdr, fileLength: word)
    requires Validates(ph, fileLength)
    ensures var pl := Place(ph); var pageOffset := ph.vaddr % PGSIZE;
      && pl.memPage + pageOffset == ph.vaddr && pl.filePage + pageOffset == ph.offset
      && pl.readBytes == (if ph.filesz > 0 then pageOffset + ph.filesz else 0)
      && (pl.readBytes + pl.zeroBytes) % PGSIZE == 0
      && pageOffset + ph.memsz <= pl.readBytes + pl.zeroBytes < pageOffset + ph.memsz + PGSIZE
      && PGSIZE <= pl.memPage && pl.memPage + pl.readBytes + pl.zeroBytes <= PHYS_BASE
      && pl.memPage % PGSIZE == 0 && pl.filePage % PGSIZE == 0
  {
    ValidatesMeans(ph, fileLength);
    var pageOffset: word := ph.vaddr % PGSIZE;
    assert Add32(pageOffset, ph.memsz) == pageOffset + ph.memsz;
    assert Add32(pageOffset, ph.filesz) == pageOffset + ph.filesz;
    var total := RoundUp32(Add32(pageOffset, ph.memsz));
    RoundUpExact(Add32(pageOffset, ph.memsz));
    var pl := Place(ph);
    assert pl.readBytes <= total;
    assert Sub32(total, pl.readBytes) == total - pl.readBytes;
    assert pl.memPage % PGSIZE == 0;
    PagesBelow(pl.memPage, total, ph.vaddr + ph.memsz);
  }

  /** Whole pages that start below a page boundary end at or below it. */
  lemma PagesBelow(memPage: nat, total: nat, end: nat)
    requires memPage % PGSIZE == 0 && total % PGSIZE == 0
    requires memPage + total < end + PGSIZE && end < PHYS_BASE
    ensures memPage + total <= PHYS_BASE
  {
    assert PHYS_BASE == 786432 * PGSIZE;
    var a, b := memPage / PGSIZE, total / PGSIZE;
    assert memPage + total == (a + b) * PGSIZE;
  }
}
