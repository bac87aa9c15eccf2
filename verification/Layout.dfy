/** The constants and flag bits of inc/mmu.h, inc/memlayout.h and inc/error.h, shared by every
    module. */
module Layout {
  const PGSIZE: nat := 4096
  const NPTENTRIES: nat := 1024      // words in a page, entries in a table
  const NUSERPDE: nat := 955         // PDX(UTOP): directory entries below UTOP
  const UTOP: nat := 0xeec0_0000
  const UXSTACKTOP: nat := UTOP
  const ULIM: nat := 0xef80_0000
  /** The page number of the user exception stack, the last user page. */
  const UXPAGE: nat := 0xeebff

  const E_BAD_ENV := 2
  const E_INVAL := 3
  const E_NO_MEM := 4
  const E_NO_FREE_ENV := 5
  const E_IPC_NOT_RECV := 7

  predicate HasP(perm: nat) { perm % 2 == 1 }
  predicate HasW(perm: nat) { perm / 2 % 2 == 1 }
  predicate HasU(perm: nat) { perm / 4 % 2 == 1 }

  /** (perm & ~PTE_SYSCALL) == 0: only the bits P, W, U and the three available ones. */
  predicate OnlySyscallBits(perm: nat) { perm < PGSIZE && perm / 8 % 64 == 0 }
}
