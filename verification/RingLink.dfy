/** Where the ring's models meet: the slots of the stream model are the bytes the kernel maps, and the kernel's flat
    tables are what the page-table operations build. */
module RingLink {
  import opened Params
  import opened PageTree
  import Vm
  import opened RingPages
  import RingProto

  /** Two offsets into the 32 mapped pages are one byte of memory exactly when they are the same slot modulo 65536, so
      `phys[x % 65536]` of the stream model is what both processes see at offset x. */
  lemma OneSlot(t: Table, top: int, buf: seq<int>, x: nat, y: nat)
    requires |buf| == RINGBUF_SIZE && Mapped(t, top) && Mirrors(t, top, buf, 2 * RINGBUF_SIZE)
    requires forall i, j | 0 <= i < j < RINGBUF_SIZE :: buf[i] != buf[j]
    requires x < 2 * RINGBUF_SIZE * PGSIZE && y < 2 * RINGBUF_SIZE * PGSIZE
    ensures RingProto.SIZE == RINGBUF_SIZE * PGSIZE
    ensures Byte(t, top, x) == Byte(t, top, y) <==> x % RingProto.SIZE == y % RingProto.SIZE
  {
    BottomSlot(t, top, buf, x);
    BottomSlot(t, top, buf, y);
    var a, b := x % RingProto.SIZE, y % RingProto.SIZE;
    if a < b {
      WindowOnce(t, top, buf, 0, RINGBUF_SIZE * PGSIZE, a, b);
    } else if b < a {
      WindowOnce(t, top, buf, 0, RINGBUF_SIZE * PGSIZE, b, a);
    }
  }

  lemma BottomSlot(t: Table, top: int, buf: seq<int>, x: nat)
    requires |buf| == RINGBUF_SIZE && Mapped(t, top) && Mirrors(t, top, buf, 2 * RINGBUF_SIZE)
    requires x < 2 * RINGBUF_SIZE * PGSIZE
    ensures Byte(t, top, x) == Byte(t, top, x % RingProto.SIZE)
  {
    if x >= RingProto.SIZE {
      assert x % RingProto.SIZE == x - RingProto.SIZE;
      Alias(t, top, buf, x - RingProto.SIZE);
    }
  }

  /** The flat table of a page table: page to frame. */
  ghost function TableOf(f: map<nat, int>): Table { map v | v in f :: Pa(f[v]) }

  /** One page mapped or unmapped by mappages and uvmunmap is one entry of the flat table. */
  lemma TableSteps(f: map<nat, int>, v: nat, pa: int, perm: nat)
    requires perm < 1024 && pa % PGSIZE == 0
    ensures TableOf(Vm.MapRange(f, v, pa, WithV(perm), 1)) == TableOf(f)[v := pa]
    ensures TableOf(Vm.UnmapRange(f, v, 1)) == TableOf(f) - {v}
  {
    var g := Vm.MapRange(f, v, pa, WithV(perm), 1);
    Vm.MapRangeAt(f, v, pa, WithV(perm), 1, v);
    forall k | k in f && k != v ensures g[k] == f[k] { Vm.MapRangeAt(f, v, pa, WithV(perm), 1, k); }
    WordDigits(pa / PGSIZE, WithV(perm));
    assert TableOf(g).Keys == TableOf(f)[v := pa].Keys;
    assert TableOf(Vm.UnmapRange(f, v, 1)).Keys == (TableOf(f) - {v}).Keys;
  }

  /** A process image leaves the gap that create_ringbuf's failure path runs into. */
  lemma ImageGap(end: int, f: map<nat, int>, t: Tree, free: seq<int>, n: nat)
    requires Vm.Image(end, f, t, free, n) && KERNBASE <= end
    ensures HasGap(TableOf(f))
  {
    Vm.ImageFits(end, f, t, free, n);
    var v := if n == 0 then 1 else n;
    assert v !in TableOf(f);
  }
}
