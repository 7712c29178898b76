/** The kernel's parameters that several models share (kernel/param.h, kernel/memlayout.h, kernel/riscv.h). */
module Params {
  const PGSIZE: nat := 4096
  const MAXVA: nat := 0x40_0000_0000
  const NVPN: nat := 0x400_0000         // MAXVA / PGSIZE
  const KERNBASE: int := 0x8000_0000
  const KERNPAGE: nat := 0x8_0000       // KERNBASE / PGSIZE

  const MAXOPBLOCKS: nat := 10
  const LOGSIZE: nat := 30              // 3 * MAXOPBLOCKS
  const NBUF: nat := 30                 // 3 * MAXOPBLOCKS
  const PIPESIZE: int := 512
  const WORD32: int := 0x1_0000_0000    // uint wraps here

  type Block = seq<int>                 // words in the log, bytes in the inode layer
  type Disk = map<int, Block>
}
