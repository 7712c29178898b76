/** Where the kernel puts a ring in an address space, and what its 32 pages show. Addresses are page numbers. */
module RingPages {
  import opened Params

  const RINGBUF_SIZE: int := 16
  const TOP: int := NVPN - 3        // the first page scanned: below trampoline, trapframe and a guard page
  const WANT: int := 34                   // guard + 32 + book

  /** A page table as a flat map from pages to physical pages; every mapped page is a user page. */
  type Table = map<int, int>

  /** `n` unmapped pages from `hi` down, all above KERNPAGE. */
  ghost predicate FreeRun(t: Table, hi: int, n: int) {
    hi <= TOP && hi - n >= KERNPAGE && forall v | hi - n < v <= hi :: v !in t
  }

  /** find_contiguous_pages: on success the highest run of unmapped pages. `base` is the top page of the run when
      nothing was mapped above it, and else the mapped page just above the run. */
  method FindContiguousPages(t: Table, num: nat) returns (ok: bool, base: int)
    requires num > 0
    ensures ok ==> base <= TOP && FreeRun(t, if base in t then base - 1 else base, num) && (base !in t ==> base == TOP)
    ensures ok ==> forall hi | (if base in t then base - 1 else base) < hi <= TOP :: !FreeRun(t, hi, num)
    ensures !ok ==> forall hi :: !FreeRun(t, hi, num)
  {
    base := TOP;
    var count, va := 0, TOP;
    ghost var reset := false;
    while va > KERNPAGE
      invariant KERNPAGE <= va <= TOP && 0 <= count < num
      invariant va == (if reset then base - 1 else base) - count && base <= TOP
      invariant if reset then base in t else base == TOP
      invariant forall v | va < v <= (if reset then base - 1 else base) :: v !in t
      invariant forall hi | (if reset then base - 1 else base) < hi <= TOP :: !FreeRun(t, hi, num)
    {
      if va !in t {
        count := count + 1;
        if count == num {
          assert reset <==> base in t;
          return true, base;
        }
      } else {
        forall hi | va - 1 < hi <= TOP ensures !FreeRun(t, hi, num) {
          assert hi <= (if reset then base - 1 else base) ==> hi - num < va <= hi;
        }
        count, base, reset := 0, va, true;
      }
      va := va - 1;
    }
    return false, base;
  }

  // ---- what create and append map ----

  /** The top page of the run that was found. */
  function RunTop(t: Table, base: int): int { if base in t then base - 1 else base }

  /** The highest run of unmapped pages that is long enough. */
  ghost predicate Highest(t: Table, hi: int) {
    FreeRun(t, hi, WANT) && forall h | hi < h <= TOP :: !FreeRun(t, h, WANT)
  }

  /** Where create_ringbuf and append_ringbuf put the top page of the buffer. One and two pages are left free at the
      top of the address space; below a mapped page create leaves none, because the scan stops on that page. */
  function CreateTop(hi: int): int { if hi == TOP then TOP - 1 else hi }

  function AppendTop(hi: int): int { if hi == TOP then TOP - 2 else hi - 1 }

  /** What find_contiguous_pages leaves in base, in those terms. */
  lemma BaseTop(t: Table, base: int)
    requires base <= TOP && FreeRun(t, RunTop(t, base), WANT) && (base !in t ==> base == TOP)
    requires forall hi | RunTop(t, base) < hi <= TOP :: !FreeRun(t, hi, WANT)
    ensures Highest(t, RunTop(t, base))
    ensures base - 1 == CreateTop(RunTop(t, base)) && base - 2 == AppendTop(RunTop(t, base))
  {
  }

  lemma HighestUnique(t: Table, hi: int, h: int)
    requires Highest(t, hi) && Highest(t, h)
    ensures hi == h
  {
  }

  /** The pages mapped when the buffer's top page is `top`: 32 buffer pages and the book page below them. */
  predicate Placed(top: int, v: int) { top - 2 * RINGBUF_SIZE <= v <= top }

  predicate InRun(hi: int, v: int) { hi - WANT < v <= hi }

  /** create_ringbuf skips one guard page: its 33 pages lie inside the run. */
  lemma CreateInside(t: Table, base: int, v: int)
    requires FreeRun(t, RunTop(t, base), WANT) && Placed(base - 1, v)
    ensures InRun(RunTop(t, base), v) && v !in t && v > KERNPAGE
  {
  }

  /** append_ringbuf skips two pages: its 33 pages lie inside the run exactly when the scan had reset base_va;
      otherwise all but the book page do, and the book page is the one just below the run. */
  lemma AppendInside(t: Table, base: int)
    requires FreeRun(t, RunTop(t, base), WANT)
    ensures (forall v | Placed(base - 2, v) :: InRun(RunTop(t, base), v)) <==> base in t
    ensures base !in t ==> base - 2 - 2 * RINGBUF_SIZE == RunTop(t, base) - WANT
    ensures forall v | Placed(base - 2, v) && v != base - 2 - 2 * RINGBUF_SIZE :: InRun(RunTop(t, base), v)
    ensures (forall v | Placed(base - 2, v) :: v !in t) <==> base in t || base - 2 - 2 * RINGBUF_SIZE !in t
  {
    var book := base - 2 - 2 * RINGBUF_SIZE;
    assert Placed(base - 2, book) && (InRun(RunTop(t, base), book) <==> base in t);
  }

  /** ringbuf_open's arithmetic on the address handed to the user: the bottom of the buffer and the book page. */
  function UserBuf(addr: int): int { addr - (2 * RINGBUF_SIZE - 1) * PGSIZE }

  function UserBook(addr: int): int { UserBuf(addr) - PGSIZE }

  /** ringbuf_close's way back to the address. */
  function UserAddr(buf: int): int { buf + (2 * RINGBUF_SIZE - 1) * PGSIZE }

  /** The user's book page is the kernel's, its buffer starts at the lowest buffer page, and closing passes the
      address it was given. */
  lemma BookAgrees(top: int)
    ensures UserBook(top * PGSIZE) == (top - 2 * RINGBUF_SIZE) * PGSIZE
    ensures UserBuf(top * PGSIZE) == (top - (2 * RINGBUF_SIZE - 1)) * PGSIZE
    ensures UserAddr(UserBuf(top * PGSIZE)) == top * PGSIZE
  {
  }

  // ---- the doubled mapping ----

  /** The first `n` pages from `top` down show buf[0], buf[1], ..., buf[15] and again from buf[0]. */
  ghost predicate Mirrors(t: Table, top: int, buf: seq<int>, n: int)
    requires |buf| == RINGBUF_SIZE
  {
    forall v | top - n < v <= top :: v in t && t[v] == buf[(top - v) % RINGBUF_SIZE]
  }

  /** mappages_to_proc after `n` pages. */
  ghost predicate Shows(t0: Table, t: Table, top: int, buf: seq<int>, n: int)
    requires |buf| == RINGBUF_SIZE
  {
    && Mirrors(t, top, buf, n)
    && (forall v | v in t && !(top - n < v <= top) :: v in t0 && t0[v] == t[v])
    && (forall v | v in t0 :: v in t && t[v] == t0[v])
  }

  /** The mapping loop for a ring that exists; mappages panics on a page that is mapped already. */
  method MapBuffer(t0: Table, top: int, buf: seq<int>) returns (ok: bool, t: Table)
    requires |buf| == RINGBUF_SIZE
    ensures ok <==> forall v | top - 2 * RINGBUF_SIZE < v <= top :: v !in t0
    ensures ok ==> Shows(t0, t, top, buf, 2 * RINGBUF_SIZE)
  {
    t := t0;
    var i := 0;
    while i < 2 * RINGBUF_SIZE
      invariant 0 <= i <= 2 * RINGBUF_SIZE && Shows(t0, t, top, buf, i)
      invariant forall v | top - i < v <= top :: v !in t0
    {
      if top - i in t {
        assert top - i in t0;
        return false, t;
      }
      t := t[top - i := buf[i % RINGBUF_SIZE]];
      i := i + 1;
    }
    return true, t;
  }

  /** The loop for a new ring after `n` pages: the first 16 pages are new, the next 16 are the same again. */
  ghost predicate Building(t0: Table, t: Table, top: int, buf: seq<int>, n: nat) {
    && n <= 2 * RINGBUF_SIZE && |buf| == (if n < RINGBUF_SIZE then n else RINGBUF_SIZE)
    && (forall v | top - n < v <= top ::
          v in t && (top - v) % RINGBUF_SIZE < |buf| && t[v] == buf[(top - v) % RINGBUF_SIZE])
    && (forall v | v in t && !(top - n < v <= top) :: v in t0 && t0[v] == t[v])
    && (forall v | v in t0 :: v in t && t[v] == t0[v])
  }

  lemma BuildStep(t0: Table, t: Table, top: int, buf: seq<int>, n: nat, page: int)
    requires Building(t0, t, top, buf, n) && n < 2 * RINGBUF_SIZE && top - n !in t0
    ensures n < RINGBUF_SIZE ==> Building(t0, t[top - n := page], top, buf + [page], n + 1)
    ensures n >= RINGBUF_SIZE ==> Building(t0, t[top - n := buf[n % RINGBUF_SIZE]], top, buf, n + 1)
  {
  }

  lemma BuildDone(t0: Table, t: Table, top: int, buf: seq<int>)
    requires Building(t0, t, top, buf, 2 * RINGBUF_SIZE)
    ensures |buf| == RINGBUF_SIZE && Shows(t0, t, top, buf, 2 * RINGBUF_SIZE)
  {
  }

  /** Between a process's memory and KERNPAGE there is always an unmapped page: Vm.ImageFits. */
  ghost predicate HasGap(t: Table) { exists v :: 1 <= v < KERNPAGE && v !in t }

  /** What happens when kalloc fails: uvmdealloc(pagetable, va, PGSIZE) unmaps the process's memory from its second
      page on; false is its panic on a page that is not mapped. */
  method UnmapBelow(t0: Table, va: int) returns (ok: bool, ghost n: int)
    ensures ok <==> forall v | 1 <= v < va :: v in t0
    ensures !ok ==> 1 <= n < va && n !in t0 && forall v | 1 <= v < n :: v in t0    // those before n are gone
  {
    var v := 1;
    while v < va
      invariant 1 <= v && forall x | 1 <= x < v :: x in t0
    {
      if v !in t0 { return false, v; }
      v := v + 1;
    }
    return true, v;
  }

  lemma Stranded(t0: Table, t: Table, top: int, buf: seq<int>, n: nat)
    requires Building(t0, t, top, buf, n) && HasGap(t0) && top - 2 * RINGBUF_SIZE > KERNPAGE
    ensures exists v :: 1 <= v < top - n && v !in t
  {
    var v :| 1 <= v < KERNPAGE && v !in t0;
    assert v < top - n && v !in t;
  }

  ghost predicate Mapped(t: Table, top: int) { forall v | top - 2 * RINGBUF_SIZE <= v <= top :: v in t }

  lemma MirrorsMapped(t: Table, top: int, buf: seq<int>)
    requires |buf| == RINGBUF_SIZE && Mirrors(t, top, buf, 2 * RINGBUF_SIZE) && top - 2 * RINGBUF_SIZE in t
    ensures Mapped(t, top)
  {
  }

  /** Byte x of the buffer, counted from the bottom: its physical page and the offset in it. */
  ghost function Byte(t: Table, top: int, x: int): (int, int)
    requires 0 <= x < 2 * RINGBUF_SIZE * PGSIZE && Mapped(t, top)
  {
    (t[top - (2 * RINGBUF_SIZE - 1) + x / PGSIZE], x % PGSIZE)
  }

  /** Page k from the bottom is buf[15 - k % 16]. */
  lemma FromBottom(t: Table, top: int, buf: seq<int>, k: nat)
    requires |buf| == RINGBUF_SIZE && Mirrors(t, top, buf, 2 * RINGBUF_SIZE) && k < 2 * RINGBUF_SIZE
    ensures top - (2 * RINGBUF_SIZE - 1) + k in t && t[top - (2 * RINGBUF_SIZE - 1) + k] == buf[15 - k % RINGBUF_SIZE]
  {
    var i := 2 * RINGBUF_SIZE - 1 - k;
    assert top - (2 * RINGBUF_SIZE - 1) + k == top - i;
    assert i % RINGBUF_SIZE == 15 - k % RINGBUF_SIZE;
  }

  lemma ByteAt(t: Table, top: int, buf: seq<int>, x: nat)
    requires |buf| == RINGBUF_SIZE && Mapped(t, top) && Mirrors(t, top, buf, 2 * RINGBUF_SIZE)
    requires x < 2 * RINGBUF_SIZE * PGSIZE
    ensures Byte(t, top, x) == (buf[15 - x / PGSIZE % RINGBUF_SIZE], x % PGSIZE)
  {
    FromBottom(t, top, buf, x / PGSIZE);
  }

  /** Offsets x and x + 65536 are the same byte. */
  lemma Alias(t: Table, top: int, buf: seq<int>, x: nat)
    requires |buf| == RINGBUF_SIZE && Mapped(t, top) && Mirrors(t, top, buf, 2 * RINGBUF_SIZE)
    requires x < RINGBUF_SIZE * PGSIZE
    ensures Byte(t, top, x + RINGBUF_SIZE * PGSIZE) == Byte(t, top, x)
  {
    ByteAt(t, top, buf, x);
    ByteAt(t, top, buf, x + RINGBUF_SIZE * PGSIZE);
    PageOf(x);
  }

  lemma PageOf(x: nat)
    ensures (x + RINGBUF_SIZE * PGSIZE) / PGSIZE == x / PGSIZE + RINGBUF_SIZE
    ensures (x + RINGBUF_SIZE * PGSIZE) % PGSIZE == x % PGSIZE
    ensures (x / PGSIZE + RINGBUF_SIZE) % RINGBUF_SIZE == x / PGSIZE % RINGBUF_SIZE
  {
  }

  /** A window of at most 65536 bytes that starts below 65536 stays in the 32 pages and meets no byte of memory
      twice. */
  lemma WindowOnce(t: Table, top: int, buf: seq<int>, start: nat, len: nat, a: nat, b: nat)
    requires |buf| == RINGBUF_SIZE && Mapped(t, top) && Mirrors(t, top, buf, 2 * RINGBUF_SIZE)
    requires forall i, j | 0 <= i < j < RINGBUF_SIZE :: buf[i] != buf[j]
    requires start < RINGBUF_SIZE * PGSIZE && len <= RINGBUF_SIZE * PGSIZE && a < b < len
    ensures start + b < 2 * RINGBUF_SIZE * PGSIZE
    ensures Byte(t, top, start + a) != Byte(t, top, start + b)
  {
    ByteAt(t, top, buf, start + a);
    ByteAt(t, top, buf, start + b);
    if (start + a) % PGSIZE == (start + b) % PGSIZE { SamePage(start + a, start + b); }
  }

  lemma SamePage(x: nat, y: nat)
    requires x < y < x + RINGBUF_SIZE * PGSIZE && x % PGSIZE == y % PGSIZE
    ensures x / PGSIZE % RINGBUF_SIZE != y / PGSIZE % RINGBUF_SIZE
  {
  }
}
