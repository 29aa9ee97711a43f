/** Sizes, addresses and 32-bit arithmetic shared by every part of the model. */
module Machine {

  const PGSIZE: nat := 4096
  const PHYS_BASE: nat := 0xC000_0000
  const ADDRESS_SPACE: nat := 0x1_0000_0000

  /** Lowest user address that a fault handler or a system call accepts. */
  const USER_VADDR_BOTTOM: nat := 0x0804_8000

  datatype Option<T> = None | Some(value: T)

  newtype byte = b: int | 0 <= b < 256

  /** A machine word: an address or a `uint32_t`. */
  type word = w: int | 0 <= w < ADDRESS_SPACE

  type Page = p: seq<byte> | |p| == PGSIZE witness Zeros(PGSIZE)

  function Zeros(n: nat): (z: seq<byte>)
    ensures |z| == n && forall i :: 0 <= i < n ==> z[i] == 0
  {
    seq(n, i => 0)
  }

  /** Addition of two `uint32_t` values. */
  function Add32(a: word, b: word): word {
    (a + b) % ADDRESS_SPACE
  }

  /** A sum taken step by step wraps like the whole sum. */
  lemma AddWraps(a: nat, b: word)
    ensures Add32(a % ADDRESS_SPACE, b) == (a + b) % ADDRESS_SPACE
  {
  }

  /** Subtraction of two `uint32_t` values. */
  function Sub32(a: word, b: word): word {
    (a - b) % ADDRESS_SPACE
  }

  /** `pg_round_down`. */
  function PageStart(addr: word): word {
    addr - addr % PGSIZE
  }

  /** `is_user_vaddr`. */
  predicate IsUser(addr: word) {
    addr < PHYS_BASE
  }
}
