/** Physical pages, the kalloc free list threaded through them, and the
    page-table operations of one machine, working in place on memory words. */
module Vm {
  import opened Option
  import opened Params
  import opened PageTree

  const PHYSTOP: int := 0x8800_0000
  const JUNK_FREE: int := 0x0101010101010101
  const JUNK_ALLOC: int := 0x0505050505050505

  datatype Status = Done | NoMemory | Panic
  datatype WalkResult = Slot(page: int, index: nat) | NoPte | WalkPanic

  predicate InRange(end: int, pa: int) { pa % PGSIZE == 0 && end <= pa < PHYSTOP }

  function Head(free: seq<int>): int { if free == [] then 0 else free[0] }

  /** The first word of the `i`th free page is the address of the next one, or null. */
  ghost predicate LinkOk(mem: Mem, free: seq<int>, i: nat)
    requires i < |free|
  {
    PageOk(mem, free[i]) && mem[free[i]][0] == if i + 1 < |free| then free[i + 1] else 0
  }

  /** The list starting at `head` runs through exactly the pages of `free`, each once. */
  ghost predicate FreeOk(end: int, mem: Mem, head: int, free: seq<int>) {
    && KERNBASE <= end && head == Head(free)
    && (forall p | InRange(end, p) :: PageOk(mem, p))
    && (forall i | 0 <= i < |free| :: InRange(end, free[i]))
    && (forall i {:trigger LinkOk(mem, free, i)} | 0 <= i < |free| :: LinkOk(mem, free, i))
    && (forall i, j | 0 <= i < j < |free| :: free[i] != free[j])
  }

  lemma FreeFrame(end: int, mem: Mem, mem': Mem, head: int, free: seq<int>, ps: set<int>)
    requires FreeOk(end, mem, head, free) && Kept(mem, mem', ps)
    requires forall p | p in ps :: PageOk(mem', p) && p !in free
    ensures FreeOk(end, mem', head, free)
  {
    forall i | 0 <= i < |free| ensures LinkOk(mem', free, i) {
      assert LinkOk(mem, free, i) && free[i] in free;
    }
  }

  /** After a page is freed twice no finite list starts at it: following the links leads back. */
  lemma DoubleFree(end: int, mem: Mem, head: int, free: seq<int>, pa: int, mem': Mem, l: seq<int>)
    requires FreeOk(end, mem, head, free) && pa in free && pa in mem' && |mem'[pa]| == 512
    requires mem' == mem[pa := mem'[pa]] && mem'[pa][0] == head
    ensures !FreeOk(end, mem', pa, l)
  {
    if FreeOk(end, mem', pa, l) {
      var i :| 0 <= i < |free| && free[i] == pa;
      DoubleChain(end, mem, head, free, pa, mem', l, i, i);
      assert false;
    }
  }

  lemma {:induction false} DoubleChain(end: int, mem: Mem, head: int, free: seq<int>, pa: int, mem': Mem, l: seq<int>,
                                       i: nat, j: nat)
    requires FreeOk(end, mem, head, free) && i < |free| && free[i] == pa && pa in mem' && |mem'[pa]| == 512
    requires mem' == mem[pa := mem'[pa]] && mem'[pa][0] == head && FreeOk(end, mem', pa, l) && j <= i
    ensures j + 1 < |l| && l[j + 1] == free[j]
    decreases j
  {
    assert InRange(end, free[j]);
    if j == 0 {
      assert LinkOk(mem', l, 0);
    } else {
      DoubleChain(end, mem, head, free, pa, mem', l, i, j - 1);
      assert LinkOk(mem, free, j - 1) && LinkOk(mem', l, j);
    }
  }

  lemma FreeTail(end: int, mem: Mem, free: seq<int>)
    requires free != [] && FreeOk(end, mem, free[0], free)
    ensures FreeOk(end, mem, Head(free[1..]), free[1..]) && free[0] !in free[1..]
  {
    forall i | 0 <= i < |free[1..]| ensures LinkOk(mem, free[1..], i) {
      assert LinkOk(mem, free, i + 1);
    }
  }

  lemma GrowFree(end: int, mem: Mem, free: seq<int>, table: int, i: nat)
    requires free != [] && FreeOk(end, mem, free[0], free) && PageOk(mem, table) && table !in free && i < 512
    ensures FreeOk(end, Linked(mem, table, i, free[0]), Head(free[1..]), free[1..])
  {
    FreeTail(end, mem, free);
    FreeFrame(end, mem, Linked(mem, table, i, free[0]), Head(free[1..]), free[1..], {free[0], table});
  }

  function ToSet(s: seq<int>): set<int> { set x | x in s }

  /** Pages outside `ps` hold what they held. */
  ghost predicate Kept(mem: Mem, mem': Mem, ps: set<int>) {
    forall p | p in mem && p !in ps :: p in mem' && mem'[p] == mem[p]
  }

  lemma KeptPoke(mem: Mem, p: int, i: nat, w: int)
    requires p in mem && i < |mem[p]|
    ensures Kept(mem, Poke(mem, p, i, w), {p})
  {
  }

  lemma KeptMore(mem: Mem, mem1: Mem, mem2: Mem, ps: set<int>, p: int)
    requires Kept(mem, mem1, ps) && p in ps && p in mem1 && mem2.Keys == mem1.Keys
    requires forall q | q in mem1 && q != p :: mem2[q] == mem1[q]
    ensures Kept(mem, mem2, ps)
  {
  }

  lemma KeptTrans(mem: Mem, mem1: Mem, mem2: Mem, ts: set<int>, fs: set<int>, fs': set<int>)
    requires fs <= fs' && Kept(mem, mem1, ts + fs) && Kept(mem1, mem2, ts + fs')
    ensures Kept(mem, mem2, ts + fs')
  {
  }

  /** Pages moved from the free list into the tree, none lost, nothing else touched. */
  ghost predicate Grown(mem: Mem, free: seq<int>, t: Tree, mem': Mem, free': seq<int>, t': Tree) {
    && t.Keys <= t'.Keys && t'.Keys + ToSet(free') == t.Keys + ToSet(free)
    && Kept(mem, mem', t.Keys + ToSet(free))
  }

  lemma GrownRefl(mem: Mem, free: seq<int>, t: Tree)
    ensures Grown(mem, free, t, mem, free, t)
  {
  }

  lemma GrownTrans(mem: Mem, free: seq<int>, t: Tree, mem1: Mem, free1: seq<int>, t1: Tree, mem2: Mem, free2: seq<int>,
                   t2: Tree)
    requires Grown(mem, free, t, mem1, free1, t1) && Grown(mem1, free1, t1, mem2, free2, t2)
    ensures Grown(mem, free, t, mem2, free2, t2)
  {
  }

  /** A tree none of whose pages is free or outside the allocator's range. */
  ghost predicate Space(end: int, mem: Mem, free: seq<int>, root: int, t: Tree) {
    Wf(mem, root, t) && forall p | p in t :: p !in free && InRange(end, p)
  }

  ghost predicate SameLeaves(mem: Mem, t: Tree, mem': Mem, t': Tree, root: int)
    requires Wf(mem, root, t) && Wf(mem', root, t')
  {
    forall v | 0 <= v < NVPN :: Leaf(mem', root, t', v) == Leaf(mem, root, t, v)
  }

  /** What one added table does to memory, free list and tree together. */
  lemma GrowSpace(end: int, mem: Mem, free: seq<int>, root: int, t: Tree, level: nat, v: nat, table: int)
    requires free != [] && FreeOk(end, mem, free[0], free) && Space(end, mem, free, root, t)
    requires v < NVPN && 0 < level <= 2 && TableAt(mem, root, t, level, v) == Some(table)
    requires !Valid(mem[table][PX(level, v)])
    ensures var page := free[0];
      var mem', t' := Linked(mem, table, PX(level, v), page), LinkedTree(t, table, PX(level, v), page);
      && FreeOk(end, mem', Head(free[1..]), free[1..]) && Space(end, mem', free[1..], root, t')
      && TableAt(mem', root, t', level - 1, v) == Some(page) && SameLeaves(mem, t, mem', t', root)
      && Grown(mem, free, t, mem', free[1..], t')
  {
    GrowFree(end, mem, free, table, PX(level, v));
    Grow(mem, root, t, level, v, table, free[0]);
    assert free == [free[0]] + free[1..];
  }

  /** Storing one leaf word updates the flat map at that page and nothing else. */
  lemma StoreLeaf(end: int, mem: Mem, head: int, free: seq<int>, root: int, t: Tree, p: int, v: nat, w: int)
    requires FreeOk(end, mem, head, free) && Space(end, mem, free, root, t)
    requires v < NVPN && TableAt(mem, root, t, 0, v) == Some(p)
    ensures var mem' := Poke(mem, p, PX(0, v), w);
      && FreeOk(end, mem', head, free) && Space(end, mem', free, root, t) && Kept(mem, mem', t.Keys)
      && Flat(mem', root, t) == if Valid(w) then Flat(mem, root, t)[v := w] else Flat(mem, root, t) - {v}
  {
    var mem' := Poke(mem, p, PX(0, v), w);
    SetFlat(mem, root, t, p, v, w);
    FreeFrame(end, mem, mem', head, free, {p});
  }

  lemma SameFlat(mem: Mem, t: Tree, mem': Mem, t': Tree, root: int)
    requires Wf(mem, root, t) && Wf(mem', root, t') && SameLeaves(mem, t, mem', t', root)
    ensures Flat(mem', root, t') == Flat(mem, root, t)
  {
    FlatUnique(mem', root, t', Flat(mem, root, t));
  }

  /** `f` with `m` pages from `v0` on mapped to consecutive physical pages. */
  ghost function MapRange(f: map<nat, int>, v0: nat, pa: int, flags: nat, m: nat): (g: map<nat, int>)
    ensures forall k :: k in g <==> k in f || v0 <= k < v0 + m
  {
    if m == 0 then f else MapRange(f, v0, pa, flags, m - 1)[v0 + m - 1 := Pte(pa + (m - 1) * PGSIZE, flags)]
  }

  /** walkaddr's view of it: the new page inside the range, the old mapping outside. */
  lemma {:induction false} MapRangeAt(f: map<nat, int>, v0: nat, pa: int, flags: nat, m: nat, k: nat)
    requires k in f || v0 <= k < v0 + m
    ensures MapRange(f, v0, pa, flags, m)[k] == if v0 <= k < v0 + m then Pte(pa + (k - v0) * PGSIZE, flags) else f[k]
    ensures v0 <= k < v0 + m ==> MapRange(f, v0, pa, flags, m)[k] == (pa / 4096 + (k - v0)) * 1024 + flags
  {
    PageShift(pa, k - v0);
    MapRangeEntry(f, v0, pa, flags, m, k);
  }

  lemma PageShift(pa: int, d: int)
    ensures (pa + d * PGSIZE) / PGSIZE == pa / 4096 + d
  {
  }

  lemma {:induction false} MapRangeEntry(f: map<nat, int>, v0: nat, pa: int, flags: nat, m: nat, k: nat)
    requires k in f || v0 <= k < v0 + m
    ensures MapRange(f, v0, pa, flags, m)[k] == if v0 <= k < v0 + m then Pte(pa + (k - v0) * PGSIZE, flags) else f[k]
  {
    hide Pte;
    if m > 0 && k != v0 + m - 1 { MapRangeEntry(f, v0, pa, flags, m - 1, k); }
  }

  ghost predicate Unmapped(f: map<nat, int>, v0: nat, m: nat) {
    forall v: nat | v0 <= v < v0 + m :: v !in f && v < NVPN
  }

  lemma UnmappedStep(f: map<nat, int>, v0: nat, m: nat)
    requires Unmapped(f, v0, m) && v0 + m !in f && v0 + m < NVPN
    ensures Unmapped(f, v0, m + 1)
  {
  }

  lemma MapRangeStep(f: map<nat, int>, v0: nat, pa: int, flags: nat, m: nat)
    ensures MapRange(f, v0, pa, flags, 0) == f && Unmapped(f, v0, 0)
    ensures v0 + m in MapRange(f, v0, pa, flags, m) <==> v0 + m in f
    ensures MapRange(f, v0, pa, flags, m)[v0 + m := Pte(pa + m * PGSIZE, flags)] == MapRange(f, v0, pa, flags, m + 1)
  {
  }

  /** `f` without the `m` pages from `v0` on. */
  ghost function UnmapRange(f: map<nat, int>, v0: nat, m: nat): (g: map<nat, int>)
    ensures forall k :: k in g <==> k in f && !(v0 <= k < v0 + m)
    ensures forall k | k in g :: g[k] == f[k]
  {
    if m == 0 then f else UnmapRange(f, v0, m - 1) - {v0 + m - 1}
  }

  /** Why uvmunmap panics at page `v`. */
  ghost predicate Stuck(end: int, f: map<nat, int>, v: nat, dofree: bool) {
    v !in f || Flags(f[v]) == PTE_V || (dofree && !InRange(end, Pa(f[v])))
  }

  ghost predicate NoneStuck(end: int, f: map<nat, int>, v0: nat, m: nat, dofree: bool) {
    forall v: nat | v0 <= v < v0 + m :: !Stuck(end, f, v, dofree)
  }

  lemma NoneStuckStep(end: int, f: map<nat, int>, v0: nat, m: nat, dofree: bool)
    ensures NoneStuck(end, f, v0, 0, dofree)
    ensures NoneStuck(end, f, v0, m, dofree) && !Stuck(end, f, v0 + m, dofree) ==> NoneStuck(end, f, v0, m + 1, dofree)
  {
  }

  /** The mapped pages of a range are data pages, each mapped there once. */
  ghost predicate Private(f: map<nat, int>, v0: nat, n: nat, t: Tree, free: seq<int>) {
    && (forall v | v in f && v0 <= v < v0 + n :: Pa(f[v]) !in t && Pa(f[v]) !in free)
    && (forall v, u | v in f && u in f && v0 <= v < u < v0 + n :: Pa(f[v]) != Pa(f[u]))
  }

  /** Freeing the pages of a range is safe when that holds of all of them, or of those before one where uvmunmap
      panics. */
  ghost predicate Guarded(end: int, f: map<nat, int>, v0: nat, n: nat, t: Tree, free: seq<int>) {
    exists k: nat :: k <= n && (k < n ==> Stuck(end, f, v0 + k, true)) && Private(f, v0, k, t, free)
  }

  lemma PrivateGuarded(end: int, f: map<nat, int>, v0: nat, n: nat, t: Tree, free: seq<int>)
    requires Private(f, v0, n, t, free)
    ensures Guarded(end, f, v0, n, t, free)
  {
  }

  /** Every page that is free, a table, or mapped. */
  ghost predicate Held(free: seq<int>, t: Tree, f: map<nat, int>, p: int) {
    p in free || p in t || exists v :: v in f && Pa(f[v]) == p
  }

  ghost predicate SameHeld(free: seq<int>, t: Tree, f: map<nat, int>, free': seq<int>, t': Tree, f': map<nat, int>) {
    forall p :: Held(free, t, f, p) <==> Held(free', t', f', p)
  }

  lemma SameHeldRefl(free: seq<int>, t: Tree, f: map<nat, int>)
    ensures SameHeld(free, t, f, free, t, f)
  {
  }

  lemma SameHeldTrans(free: seq<int>, t: Tree, f: map<nat, int>, free1: seq<int>, t1: Tree, f1: map<nat, int>,
                      free2: seq<int>, t2: Tree, f2: map<nat, int>)
    requires SameHeld(free, t, f, free1, t1, f1) && SameHeld(free1, t1, f1, free2, t2, f2)
    ensures SameHeld(free, t, f, free2, t2, f2)
  {
  }

  lemma PrivateAt(f: map<nat, int>, v: nat, n: nat, t: Tree, free: seq<int>)
    requires Private(f, v, n, t, free) && n > 0
    ensures v in f ==> Pa(f[v]) !in t && Pa(f[v]) !in free
  {
  }

  lemma UnmapRangeStep(end: int, f: map<nat, int>, v0: nat, m: nat, dofree: bool)
    ensures UnmapRange(f, v0, 0) == f
    ensures Stuck(end, UnmapRange(f, v0, m), v0 + m, dofree) <==> Stuck(end, f, v0 + m, dofree)
    ensures !Stuck(end, f, v0 + m, dofree) ==> v0 + m in f && UnmapRange(f, v0, m)[v0 + m] == f[v0 + m]
    ensures UnmapRange(f, v0, m) - {v0 + m} == UnmapRange(f, v0, m + 1)
  {
  }

  /** The free list grew only by pages mapped in the range. */
  ghost predicate FreedFrom(f: map<nat, int>, v0: nat, m: nat, free: seq<int>, free': seq<int>) {
    forall p | p in free' && p !in free :: exists v :: v in f && v0 <= v < v0 + m && Pa(f[v]) == p
  }

  ghost predicate AllFreed(f: map<nat, int>, v0: nat, m: nat, free: seq<int>) {
    forall v | v in f && v0 <= v < v0 + m :: Pa(f[v]) in free
  }

  lemma AllFreedStep(f: map<nat, int>, v0: nat, m: nat, free: seq<int>, free': seq<int>)
    ensures AllFreed(f, v0, 0, free)
    ensures v0 + m in f && free' == [Pa(f[v0 + m])] + free && AllFreed(f, v0, m, free) ==> AllFreed(f, v0, m + 1, free')
  {
  }

  lemma FreedFromStep(f: map<nat, int>, v0: nat, m: nat, free: seq<int>, free1: seq<int>, free2: seq<int>)
    requires FreedFrom(f, v0, m, free, free1) && v0 + m in f
    requires free2 == [Pa(f[v0 + m])] + free1 || free2 == [] + free1
    ensures FreedFrom(f, v0, m + 1, free, free2)
  {
    forall p | p in free2 && p !in free ensures exists v :: v in f && v0 <= v < v0 + (m + 1) && Pa(f[v]) == p {
      if p in free1 {
        var v :| v in f && v0 <= v < v0 + m && Pa(f[v]) == p;
        assert v in f && v0 <= v < v0 + (m + 1) && Pa(f[v]) == p;
      } else {
        assert Pa(f[v0 + m]) == p;
      }
    }
  }

  lemma FreeOne(free: seq<int>, t: Tree, f: map<nat, int>, v0: nat, m: nat, n: nat)
    requires m < n && v0 + m in f && Private(UnmapRange(f, v0, m), v0 + m, n - m, t, free)
    ensures var free', f' := [Pa(f[v0 + m])] + free, UnmapRange(f, v0, m + 1);
      && SameHeld(free, t, UnmapRange(f, v0, m), free', t, f')
      && Private(f', v0 + m + 1, n - (m + 1), t, free')
  {
    var g, free', f' := UnmapRange(f, v0, m), [Pa(f[v0 + m])] + free, UnmapRange(f, v0, m + 1);
    assert f' == g - {v0 + m};
    forall p ensures Held(free, t, g, p) <==> Held(free', t, f', p) {
      if Held(free, t, g, p) && p !in free && p !in t {
        var v :| v in g && Pa(g[v]) == p;
        if v != v0 + m { assert v in f' && Pa(f'[v]) == p; }
      }
    }
  }

  function PgUp(sz: nat): nat { (sz + PGSIZE - 1) / PGSIZE }

  /** A process image of `n` pages: each mapped to its own data page, and below KERNPAGE nothing else mapped.
      Trampoline, trapframe and rings are mapped above it. */
  ghost predicate Image(end: int, f: map<nat, int>, t: Tree, free: seq<int>, n: nat) {
    && (forall v: nat | v < n :: v in f && InRange(end, Pa(f[v])) && Flags(f[v]) != PTE_V)
    && (forall v | v in f :: v < n || v >= KERNPAGE)
    && Private(f, 0, n, t, free)
  }

  /** Nothing is mapped but the image. */
  ghost predicate Only(f: map<nat, int>, n: nat) { forall v | v in f :: v < n }

  /** The pages uvmdealloc has to unmap. */
  function Gap(oldsz: nat, newsz: nat): nat {
    if newsz < oldsz && PgUp(newsz) < PgUp(oldsz) then PgUp(oldsz) - PgUp(newsz) else 0
  }

  lemma GapPrivate(end: int, f: map<nat, int>, t: Tree, free: seq<int>, oldsz: nat, newsz: nat)
    requires Image(end, f, t, free, PgUp(oldsz))
    ensures Guarded(end, f, PgUp(newsz), Gap(oldsz, newsz), t, free)
  {
    PrivateGuarded(end, f, PgUp(newsz), Gap(oldsz, newsz), t, free);
  }

  lemma StuckAt(end: int, f: map<nat, int>, v0: nat, n: nat, m: nat)
    requires m <= n && (if m < n then Stuck(end, f, v0 + m, true) else NoneStuck(end, f, v0, n, true))
    ensures m == n <==> NoneStuck(end, f, v0, n, true)
  {
  }

  /** Above the process size there is nothing to unmap, so there uvmdealloc panics, although its comment allows an old
      size larger than the actual one. */
  lemma DeallocBeyond(end: int, f: map<nat, int>, t: Tree, free: seq<int>, n: nat, oldsz: nat, newsz: nat)
    requires Image(end, f, t, free, n) && KERNBASE <= end && PgUp(newsz) < KERNPAGE
    ensures Guarded(end, f, PgUp(newsz), Gap(oldsz, newsz), t, free)
    ensures NoneStuck(end, f, PgUp(newsz), Gap(oldsz, newsz), true) <==> Gap(oldsz, newsz) == 0 || PgUp(oldsz) <= n
  {
    var v0 := PgUp(newsz);
    ImageFits(end, f, t, free, n);
    if Gap(oldsz, newsz) > 0 && PgUp(oldsz) > n {
      var s := if n < v0 then v0 else n;
      assert Stuck(end, f, s, true) && v0 + (s - v0) == s;
      assert Private(f, v0, s - v0, t, free);
    } else {
      PrivateGuarded(end, f, v0, Gap(oldsz, newsz), t, free);
    }
  }

  lemma ShrinkImage(end: int, f: map<nat, int>, t: Tree, free: seq<int>, free': seq<int>, k: nat, n: nat, m: nat)
    requires k <= n && m <= n - k && Image(end, f, t, free, n)
    requires m < n - k ==> Stuck(end, f, k + m, true)
    requires FreedFrom(f, k, m, free, free')
    ensures m == n - k && Image(end, UnmapRange(f, k, m), t, free', k)
  {
    assert m == n - k;
  }

  lemma ImagePart(end: int, f: map<nat, int>, t: Tree, free: seq<int>, n: nat, k: nat)
    requires Image(end, f, t, free, n) && k <= n
    ensures Private(f, k, n - k, t, free)
  {
  }

  lemma ImageFits(end: int, f: map<nat, int>, t: Tree, free: seq<int>, k: nat)
    requires KERNBASE <= end && Image(end, f, t, free, k)
    ensures k < KERNPAGE && k < NVPN && k !in f
  {
    ImageBound(end, f, t, free, k);
  }

  /** The first `n` pages and the high ones are mapped alike. */
  ghost predicate SameOn(f: map<nat, int>, g: map<nat, int>, n: nat) {
    forall v: nat | v < n || v >= KERNPAGE :: (v in f <==> v in g) && (v in f ==> f[v] == g[v])
  }

  lemma OnlyKept(end: int, f: map<nat, int>, g: map<nat, int>, t: Tree, free: seq<int>, k: nat, n: nat, m: nat)
    requires Only(f, n) && n <= KERNPAGE && SameOn(f, g, k) && Image(end, g, t, free, m)
    ensures Only(g, m)
  {
    forall v | v in g ensures v < m {
      assert v >= KERNPAGE ==> v in f;
    }
  }

  lemma SameOnRefl(f: map<nat, int>, n: nat)
    ensures SameOn(f, f, n)
  {
  }

  lemma SameOnGrow(f: map<nat, int>, g: map<nat, int>, n: nat, k: nat, w: int)
    requires SameOn(f, g, n) && n <= k < KERNPAGE
    ensures SameOn(f, g[k := w], n)
  {
  }

  lemma SameOnShrink(f: map<nat, int>, g: map<nat, int>, n: nat, m: nat)
    requires SameOn(f, g, n) && n + m <= KERNPAGE
    ensures SameOn(f, UnmapRange(g, n, m), n)
  {
  }

  /** The data of the first `n` pages is what it was. */
  ghost predicate SameData(mem: Mem, mem': Mem, f: map<nat, int>, n: nat) {
    forall v: nat | v < n && v in f && Pa(f[v]) in mem :: Pa(f[v]) in mem' && mem'[Pa(f[v])] == mem[Pa(f[v])]
  }

  lemma SameDataRefl(mem: Mem, f: map<nat, int>, n: nat)
    ensures SameData(mem, mem, f, n)
  {
  }

  lemma SameDataTrans(mem: Mem, mem1: Mem, mem2: Mem, f: map<nat, int>, g: map<nat, int>, n: nat, k: nat)
    requires SameData(mem, mem1, f, n) && SameData(mem1, mem2, g, k) && SameOn(f, g, n) && n <= k
    ensures SameData(mem, mem2, f, n)
  {
  }

  /** What keeps the pages outside tree and free list keeps the data of the image. */
  lemma KeptData(end: int, mem: Mem, mem': Mem, f: map<nat, int>, g: map<nat, int>, t: Tree, free: seq<int>, n: nat)
    requires Image(end, g, t, free, n) && SameOn(f, g, n) && Kept(mem, mem', t.Keys + ToSet(free))
    ensures SameData(mem, mem', f, n)
  {
  }

  /** Pages lo to hi have these flags and hold zeros. */
  ghost predicate Fresh(mem: Mem, f: map<nat, int>, lo: nat, hi: nat, flags: nat) {
    forall v: nat | lo <= v < hi ::
      v in f && f[v] % 1024 == flags && f[v] / 1024 * 4096 in mem && ZeroPage(mem[f[v] / 1024 * 4096])
  }

  ghost predicate ZeroPage(s: seq<int>) { |s| == 512 && forall i | 0 <= i < 512 :: s[i] == 0 }

  lemma NoneFresh(mem: Mem, f: map<nat, int>, oldsz: nat, newsz: nat, flags: nat)
    ensures Fresh(mem, f, PgUp(oldsz), PgUp(oldsz), flags)
    ensures newsz < oldsz ==> Fresh(mem, f, PgUp(oldsz), PgUp(newsz), flags)
  {
    if newsz < oldsz { PgUpMono(newsz, oldsz); }
  }

  lemma FreshNext(mem: Mem, mem': Mem, f: map<nat, int>, lo: nat, k: nat, page: int, flags: nat)
    requires Fresh(mem, f, lo, k, flags) && SameData(mem, mem', f, k) && flags < 1024 && page % PGSIZE == 0
    requires page in mem' && mem'[page] == Filled(0)
    ensures Fresh(mem', f[k := Pte(page, flags)], lo, k + 1, flags)
  {
    PteRoundTrip(page, flags);
  }

  lemma RoundUp(k: nat)
    ensures PgUp(k * PGSIZE) == k
  {
  }

  lemma PgUpStep(k: nat, sz: nat)
    requires k * PGSIZE < sz
    ensures k + 1 <= PgUp(sz)
  {
  }

  lemma PgUpAt(k: nat, sz: nat)
    requires k <= PgUp(sz) && sz <= k * PGSIZE
    ensures k == PgUp(sz)
  {
  }

  lemma LastPage(k: nat)
    ensures (k * PGSIZE + PGSIZE - 1) / PGSIZE == k
  {
  }

  lemma PgUpMono(a: nat, b: nat)
    requires a <= b
    ensures PgUp(a) <= PgUp(b)
  {
  }

  /** A page taken off the free list is mapped at the end of the image. */
  /** A zeroed page, the tables that map it, and the way back leave the data of the image alone. */
  lemma GrewData(end: int, mem: Mem, mem1: Mem, mem2: Mem, mem3: Mem, f: map<nat, int>, t: Tree, free: seq<int>,
                 free1: seq<int>, k: nat, page: int)
    requires Image(end, f, t, free, k) && free == [page] + free1
    requires mem1 == mem[page := Filled(0)] && Kept(mem1, mem2, t.Keys + ToSet(free1)) && Kept(mem2, mem3, {page})
    ensures SameData(mem, mem3, f, k)
  {
  }

  lemma StillZero(mem: Mem, mem': Mem, t: Tree, free: seq<int>, page: int)
    requires Kept(mem, mem', t.Keys + ToSet(free)) && page !in t && page !in free && page in mem
    ensures page in mem' && mem'[page] == mem[page]
  {
  }

  lemma KeptNothing(mem: Mem, page: int)
    ensures Kept(mem, mem, {page})
  {
  }

  lemma GrowImage(end: int, f: map<nat, int>, t: Tree, free: seq<int>, free1: seq<int>, page: int,
                  t': Tree, free': seq<int>, k: nat, flags: nat)
    requires Image(end, f, t, free, k) && free == [page] + free1 && page !in free1 && page !in t && InRange(end, page)
    requires t.Keys <= t'.Keys && t'.Keys + ToSet(free') == t.Keys + ToSet(free1)
    requires 1 < flags < 1024 && k !in f
    ensures Image(end, f[k := Pte(page, flags)], t', free', k + 1)
    ensures SameHeld(free, t, f, free', t', f[k := Pte(page, flags)])
  {
    PteRoundTrip(page, flags);
    var f' := f[k := Pte(page, flags)];
    TakenApart(t, free1, t', free');
    forall v | v in f' && 0 <= v < k + 1 ensures Pa(f'[v]) !in t' && Pa(f'[v]) !in free' {
      if v != k { assert Pa(f[v]) !in t && Pa(f[v]) !in free; }
    }
    forall p ensures Held(free, t, f, p) <==> Held(free', t', f', p) {
      if p == page { assert k in f' && Pa(f'[k]) == p; }
      if v :| v in f && Pa(f[v]) == p { assert v in f' && Pa(f'[v]) == p; }
    }
  }

  /** The page goes back when mappages fails; tables it added stay in the tree. */
  lemma KeepImage(end: int, f: map<nat, int>, t: Tree, free: seq<int>, free1: seq<int>, page: int, t': Tree,
                  free': seq<int>, k: nat)
    requires Image(end, f, t, free, k) && free == [page] + free1 && page !in free1 && page !in t
    requires t.Keys <= t'.Keys && t'.Keys + ToSet(free') == t.Keys + ToSet(free1)
    ensures Image(end, f, t', [page] + free', k) && SameHeld(free, t, f, [page] + free', t', f)
  {
    TakenApart(t, free1, t', free');
    forall v | v in f && 0 <= v < k ensures Pa(f[v]) !in t' && Pa(f[v]) !in [page] + free' {
      assert Pa(f[v]) !in t && Pa(f[v]) !in free;
    }
    forall p ensures Held(free, t, f, p) <==> Held([page] + free', t', f, p) {
    }
  }

  lemma TakenApart(t: Tree, free1: seq<int>, t': Tree, free': seq<int>)
    requires t'.Keys + ToSet(free') == t.Keys + ToSet(free1)
    ensures forall p :: p in t' || p in free' <==> p in t || p in free1
  {
    forall p ensures p in t' || p in free' <==> p in t || p in free1 {
      assert p in t'.Keys + ToSet(free') <==> p in t.Keys + ToSet(free1);
    }
  }

  /** Distinct numbers below `hi` and at least `lo` are at most `hi - lo` many. */
  lemma {:induction false} Pigeonhole(s: set<int>, lo: int, hi: int)
    requires lo <= hi && forall x | x in s :: lo <= x < hi
    ensures |s| <= hi - lo
    decreases hi - lo
  {
    if lo == hi {
      assert forall x :: x !in s;
    } else {
      Pigeonhole(s - {hi - 1}, lo, hi - 1);
      assert hi - 1 in s ==> s == (s - {hi - 1}) + {hi - 1};
      assert hi - 1 !in s ==> s == s - {hi - 1};
    }
  }

  /** The physical page numbers under the first `k` pages of an image. */
  ghost function Frames(f: map<nat, int>, k: nat): set<int>
    requires forall v: nat | v < k :: v in f
  {
    if k == 0 then {} else Frames(f, k - 1) + {f[k - 1] / 1024}
  }

  lemma {:induction false} FrameOf(f: map<nat, int>, k: nat, x: int) returns (v: nat)
    requires (forall v: nat | v < k :: v in f) && x in Frames(f, k)
    ensures v < k && x == f[v] / 1024
  {
    if x in Frames(f, k - 1) { v := FrameOf(f, k - 1, x); } else { v := k - 1; }
  }

  lemma {:induction false} FramesSize(end: int, f: map<nat, int>, t: Tree, free: seq<int>, n: nat, k: nat)
    requires Image(end, f, t, free, n) && k <= n
    ensures |Frames(f, k)| == k
  {
    if k > 0 {
      FramesSize(end, f, t, free, n, k - 1);
      if f[k - 1] / 1024 in Frames(f, k - 1) {
        var v := FrameOf(f, k - 1, f[k - 1] / 1024);
        assert false;
      }
    }
  }

  /** The machine's 128 MB bound every image, so a growing process never walks past MAXVA. */
  lemma ImageBound(end: int, f: map<nat, int>, t: Tree, free: seq<int>, n: nat)
    requires KERNBASE <= end && Image(end, f, t, free, n)
    ensures n <= 32768
  {
    FramesSize(end, f, t, free, n, n);
    forall x | x in Frames(f, n) ensures 0x80000 <= x < 0x88000 {
      var v := FrameOf(f, n, x);
      assert InRange(end, Pa(f[v]));
    }
    Pigeonhole(Frames(f, n), 0x80000, 0x88000);
  }

  /** Half-way through freewalk at table `p`: the subtrees of the first `i` entries are on the
      free list, the rest of the tree is as it was. */
  ghost predicate Walked(mem0: Mem, free0: seq<int>, mem: Mem, free: seq<int>, p: int, t: Tree, n: Node, i: nat) {
    && (forall q :: q in free <==> q in free0 || InPart(t, n, i, q))
    && Kept(mem0, mem, t.Keys)
    && (forall q | q in t && q != p && !InPart(t, n, i, q) :: q in mem0 && q in mem && mem[q] == mem0[q])
    && p in mem0 && PageOk(mem, p) && |mem0[p]| == 512 && (forall j | i <= j < 512 :: mem[p][j] == mem0[p][j])
  }

  ghost predicate Loose(end: int, free: seq<int>, t: Tree) {
    forall q | q in t :: q !in free && InRange(end, q)
  }

  lemma WalkedStart(mem: Mem, free: seq<int>, p: int, t: Tree, n: Node)
    requires SubWf(mem, p, t, n)
    ensures Walked(mem, free, mem, free, p, t, n, 0)
  {
    if n.level > 0 { forall q ensures !InPart(t, n, 0, q) { PartStep(mem, p, t, n, 0, q); } }
  }

  /** The subtree under the next valid entry is untouched, and not on the free list. */
  lemma WalkedEntry(end: int, mem0: Mem, free0: seq<int>, mem: Mem, free: seq<int>, p: int, t: Tree, n: Node, i: nat)
    requires SubWf(mem0, p, t, n) && NoLeaf(mem0, t) && Loose(end, free0, t) && i < 512
    requires Walked(mem0, free0, mem, free, p, t, n, i) && Valid(mem[p][i])
    ensures n.level > 0 && NoAccess(mem[p][i])
    ensures var s := Sub(t, Child(n, i));
      SubWf(mem, Pa(mem[p][i]), s, Child(n, i)) && NoLeaf(mem, s) && Loose(end, free, s)
  {
    var w := mem0[p][i];
    assert mem[p][i] == w;
    SubChild(mem0, p, t, n, i);
    var s := Sub(t, Child(n, i));
    forall q | q in s ensures q in mem && mem[q] == mem0[q] && q !in free && InRange(end, q) {
      PartStep(mem0, p, t, n, i, q);
    }
    SubFrame(mem0, mem, Pa(w), s, Child(n, i));
  }

  lemma WalkedSkip(mem0: Mem, free0: seq<int>, mem: Mem, free: seq<int>, p: int, t: Tree, n: Node, i: nat)
    requires SubWf(mem0, p, t, n) && i < 512 && Walked(mem0, free0, mem, free, p, t, n, i) && !Valid(mem[p][i])
    ensures Walked(mem0, free0, mem, free, p, t, n, i + 1)
  {
    if n.level > 0 {
      forall q ensures InPart(t, n, i + 1, q) <==> InPart(t, n, i, q) {
        PartStep(mem0, p, t, n, i, q);
        if q in Sub(t, Child(n, i)) { SubNone(mem0, p, t, n, i, q); }
      }
    }
  }

  lemma WalkedChild(mem0: Mem, free0: seq<int>, mem: Mem, free: seq<int>, mem1: Mem, free1: seq<int>, p: int, t: Tree,
                    n: Node, i: nat)
    requires SubWf(mem0, p, t, n) && n.level > 0 && i < 512 && Walked(mem0, free0, mem, free, p, t, n, i)
    requires forall q :: q in free1 <==> q in free || q in Sub(t, Child(n, i))
    requires Kept(mem, mem1, Sub(t, Child(n, i)).Keys)
    ensures p in mem1 && |mem1[p]| == 512 && Walked(mem0, free0, Poke(mem1, p, i, 0), free1, p, t, n, i + 1)
  {
    forall q ensures InPart(t, n, i + 1, q) <==> InPart(t, n, i, q) || q in Sub(t, Child(n, i)) {
      PartStep(mem0, p, t, n, i, q);
    }
    PartStep(mem0, p, t, n, i, p);
  }

  lemma WalkedHas(mem0: Mem, free0: seq<int>, mem: Mem, free: seq<int>, p: int, t: Tree, n: Node, i: nat)
    requires Walked(mem0, free0, mem, free, p, t, n, i)
    ensures PageOk(mem, p)
  {
  }

  lemma WalkedFree(end: int, mem0: Mem, free0: seq<int>, mem: Mem, mem': Mem, head: int, free: seq<int>, p: int,
                   t: Tree, n: Node, i: nat)
    requires SubWf(mem0, p, t, n) && Loose(end, free0, t) && Walked(mem0, free0, mem', free, p, t, n, i)
    requires FreeOk(end, mem, head, free) && Kept(mem, mem', {p})
    ensures FreeOk(end, mem', head, free)
  {
    FreeFrame(end, mem, mem', head, free, {p});
  }

  lemma WalkedEnd(end: int, mem0: Mem, free0: seq<int>, mem: Mem, free: seq<int>, p: int, t: Tree, n: Node)
    requires SubWf(mem0, p, t, n) && Loose(end, free0, t) && Walked(mem0, free0, mem, free, p, t, n, 512)
    ensures p !in free && InRange(end, p) && p in t && p in mem && Kept(mem0, mem, t.Keys)
    ensures forall q :: q in free0 || q in t <==> q == p || q in free
  {
    forall q ensures InPart(t, n, 512, q) <==> q in t && q != p {
      if n.level > 0 { PartStep(mem0, p, t, n, 0, q); }
      assert q in t && q != p ==> HasParent(mem0, t, q);
    }
  }

  lemma EmptyImage(end: int, t: Tree, free: seq<int>)
    ensures Image(end, map[], t, free, 0) && Only(map[], 0)
  {
  }

  lemma NoneMapped(f: map<nat, int>, n: nat)
    requires Only(f, n)
    ensures Only(UnmapRange(f, 0, n), 0) && UnmapRange(f, 0, n) == map[]
  {
    assert forall v :: v !in UnmapRange(f, 0, n);
    assert UnmapRange(f, 0, n).Keys == {};
  }

  lemma OnlyShrunk(f: map<nat, int>, k: nat, n: nat)
    requires Only(f, n) && k <= n
    ensures Only(UnmapRange(f, k, n - k), k)
  {
  }

  lemma EndAbove(end: int, mem: Mem, head: int, free: seq<int>)
    requires FreeOk(end, mem, head, free)
    ensures KERNBASE <= end
  {
  }

  /** The pages of a held set that is all free list. */
  lemma AllFree(free0: seq<int>, t: Tree, f: map<nat, int>, free1: seq<int>, free2: seq<int>)
    requires SameHeld(free0, t, f, free1, t, map[]) && forall q :: q in free2 <==> q in free1 || q in t
    ensures SameHeld(free0, t, f, free2, map[], map[])
  {
    forall p ensures Held(free1, t, map[], p) <==> Held(free2, map[], map[], p) {}
  }

  lemma SameFree(free0: seq<int>, free2: seq<int>)
    requires SameHeld(free0, map[], map[], free2, map[], map[])
    ensures ToSet(free2) == ToSet(free0)
  {
    forall p ensures p in ToSet(free0) <==> p in ToSet(free2) {
      assert Held(free0, map[], map[], p) <==> Held(free2, map[], map[], p);
    }
  }

  // ---- a parent and a child ----

  /** The parent's first `n` pages are as they were at the start (mem0), and the child's first `k` pages hold the
      same words under the same flags, in frames that were free at the start (free0). */
  ghost predicate Cloning(end: int, mem0: Mem, free0: seq<int>, t0: Tree, f0: map<nat, int>, n: nat,
                          mem: Mem, free: seq<int>, t1: Tree, f1: map<nat, int>, k: nat) {
    && k <= n && ToSet(free) <= ToSet(free0) && (forall p | p in t0 :: p !in t1 && p !in free0)
    && Image(end, f0, t0, free, n) && Image(end, f1, t1, free, k)
    && (forall v: nat | v < n :: v in f0 && Pa(f0[v]) !in t1 && Pa(f0[v]) !in free0
          && Pa(f0[v]) in mem0 && Pa(f0[v]) in mem && mem[Pa(f0[v])] == mem0[Pa(f0[v])])
    && (forall v: nat | v < k :: v in f1 && Pa(f1[v]) in free0 && Flags(f1[v]) == Flags(f0[v])
          && Pa(f1[v]) in mem && mem[Pa(f1[v])] == mem0[Pa(f0[v])])
  }

  lemma CloneStart(end: int, mem: Mem, free: seq<int>, t0: Tree, f0: map<nat, int>, n: nat, t1: Tree, f1: map<nat, int>)
    requires (forall p | p in t0 :: p !in t1 && p !in free) && Image(end, f0, t0, free, n)
    requires Image(end, f1, t1, free, 0)
    requires forall v: nat | v < n :: Pa(f0[v]) !in t1 && Pa(f0[v]) in mem
    ensures Cloning(end, mem, free, t0, f0, n, mem, free, t1, f1, 0)
  {
  }

  /** Tables come off the free list and the list only shrinks. */
  lemma Shrinks(t: Tree, free: seq<int>, t': Tree, free': seq<int>)
    requires t.Keys <= t'.Keys && t'.Keys + ToSet(free') == t.Keys + ToSet(free) && (forall p | p in t' :: p !in free')
    ensures ToSet(free') <= ToSet(free) && forall p | p in t' :: p in t || p in free
  {
    forall p | p in ToSet(free') ensures p in ToSet(free) { assert p in t'.Keys + ToSet(free'); }
    forall p | p in t' ensures p in t || p in free { assert p in t'.Keys + ToSet(free'); }
  }

  /** A frame taken, filled with the parent's page `k` and mapped in the child. */
  lemma CloneStep(end: int, mem0: Mem, free0: seq<int>, t0: Tree, f0: map<nat, int>, n: nat,
                  mem: Mem, free: seq<int>, t1: Tree, f1: map<nat, int>, k: nat,
                  page: int, free1: seq<int>, mem2: Mem, mem3: Mem, free3: seq<int>, t3: Tree)
    requires Cloning(end, mem0, free0, t0, f0, n, mem, free, t1, f1, k) && k < n && k !in f1
    requires free == [page] + free1 && page !in free1 && page !in t1 && InRange(end, page)
    requires page in mem && mem2 == mem[page := mem[Pa(f0[k])]]
    requires Grown(mem2, free1, t1, mem3, free3, t3) && (forall p | p in t3 :: p !in free3) && 1 < Flags(f0[k]) < 1024
    ensures Cloning(end, mem0, free0, t0, f0, n, mem3, free3, t3, f1[k := Pte(page, Flags(f0[k]))], k + 1)
    ensures SameHeld(free, t1, f1, free3, t3, f1[k := Pte(page, Flags(f0[k]))])
  {
    Shrinks(t1, free1, t3, free3);
    PteRoundTrip(page, Flags(f0[k]));
    GrowImage(end, f1, t1, free, free1, page, t3, free3, k, Flags(f0[k]));
    CloneParent(end, mem0, free0, t0, f0, n, mem, free, t1, f1, k, free3, t3);
    CloneFrames(end, mem0, free0, t0, f0, n, mem, free, t1, f1, k, page, free1, mem2, mem3, free3, t3);
  }

  lemma CloneParent(end: int, mem0: Mem, free0: seq<int>, t0: Tree, f0: map<nat, int>, n: nat,
                    mem: Mem, free: seq<int>, t1: Tree, f1: map<nat, int>, k: nat, free3: seq<int>, t3: Tree)
    requires Cloning(end, mem0, free0, t0, f0, n, mem, free, t1, f1, k)
    requires ToSet(free3) <= ToSet(free) && forall p | p in t3 :: p in t1 || p in free
    ensures (forall p | p in t0 :: p !in t3) && Image(end, f0, t0, free3, n) && ToSet(free3) <= ToSet(free0)
    ensures forall v: nat | v < n :: v in f0 && Pa(f0[v]) !in t3
  {
    forall p | p in free ensures p in free0 { assert p in ToSet(free); }
    forall p | p in free3 ensures p in free { assert p in ToSet(free3); }
  }

  lemma CloneFrames(end: int, mem0: Mem, free0: seq<int>, t0: Tree, f0: map<nat, int>, n: nat,
                    mem: Mem, free: seq<int>, t1: Tree, f1: map<nat, int>, k: nat,
                    page: int, free1: seq<int>, mem2: Mem, mem3: Mem, free3: seq<int>, t3: Tree)
    requires Cloning(end, mem0, free0, t0, f0, n, mem, free, t1, f1, k) && k < n
    requires free == [page] + free1 && page !in free1 && page !in t1 && page in mem
    requires mem2 == mem[page := mem[Pa(f0[k])]]
    requires Kept(mem2, mem3, t1.Keys + ToSet(free1))
    ensures forall v: nat | v < n :: Pa(f0[v]) in mem3 && mem3[Pa(f0[v])] == mem0[Pa(f0[v])]
    ensures forall v: nat | v < k :: Pa(f1[v]) in mem3 && mem3[Pa(f1[v])] == mem0[Pa(f0[v])]
    ensures page in mem3 && mem3[page] == mem0[Pa(f0[k])] && page in free0
  {
    assert page in ToSet(free);
    forall v: nat | v < n ensures Pa(f0[v]) in mem3 && mem3[Pa(f0[v])] == mem0[Pa(f0[v])] {
      assert Pa(f0[v]) !in t1.Keys + ToSet(free1) && Pa(f0[v]) != page;
    }
    forall v: nat | v < k ensures Pa(f1[v]) in mem3 && mem3[Pa(f1[v])] == mem0[Pa(f0[v])] {
      assert Pa(f1[v]) !in t1 && Pa(f1[v]) !in free;
    }
  }

  lemma CloneFacts(end: int, mem0: Mem, free0: seq<int>, t0: Tree, f0: map<nat, int>, n: nat,
                   mem: Mem, free: seq<int>, t1: Tree, f1: map<nat, int>, k: nat)
    requires Cloning(end, mem0, free0, t0, f0, n, mem, free, t1, f1, k) && k < n && KERNBASE <= end
    ensures k in f0 && k !in f1 && k < KERNPAGE && k < NVPN && InRange(end, Pa(f0[k])) && Flags(f0[k]) != PTE_V
    ensures Pa(f0[k]) in mem && Pa(f0[k]) !in free && Pa(f0[k]) !in t1 && forall p | p in t0 :: p !in t1
  {
    ImageFits(end, f1, t1, free, k);
    ImageFits(end, f0, t0, free, n);
    assert Pa(f0[k]) !in free;
  }

  lemma FlagsBound(pte: int)
    requires Valid(pte)
    ensures 1 <= Flags(pte) < 1024 && WithV(Flags(pte)) == Flags(pte)
  {
    var q, f := pte / 1024, pte % 1024;
    Parity(512 * q, f);
    assert pte == 2 * (512 * q) + f;
  }

  lemma Parity(a: int, f: int)
    ensures (2 * a + f) % 2 == f % 2
  {
  }

  lemma FrameOk(end: int, mem: Mem, head: int, free: seq<int>, p: int)
    requires FreeOk(end, mem, head, free) && InRange(end, p)
    ensures p in mem && |mem[p]| == 512
  {
    assert PageOk(mem, p);
  }

  /** The parent's tables are not among the pages the child's mapping touches. */
  lemma ParentKept(end: int, mem: Mem, mem': Mem, root: int, t0: Tree, t1: Tree, free: seq<int>, free': seq<int>,
                   t': Tree)
    requires Space(end, mem, free, root, t0) && Grown(mem, free, t1, mem', free', t')
    requires forall p | p in t0 :: p !in t1
    requires forall p | p in t' :: p !in free'
    ensures Space(end, mem', free', root, t0) && Flat(mem', root, t0) == Flat(mem, root, t0)
  {
    Shrinks(t1, free, t', free');
    forall p | p in t0 ensures p in mem' && mem'[p] == mem[p] && p !in free' {
      assert p !in t1.Keys + ToSet(free);
      assert p in free' ==> p in ToSet(free');
    }
    Outside(mem, mem', root, t0);
  }

  /** A page that is neither free nor a table is not touched by growing a tree. */
  lemma PageApart(mem: Mem, free: seq<int>, t: Tree, mem': Mem, free': seq<int>, t': Tree, page: int)
    requires Grown(mem, free, t, mem', free', t') && page in mem && page !in free && page !in t
    ensures page !in t' && page !in free' && page in mem'
  {
    TakenApart(t, free, t', free');
    assert page !in t.Keys + ToSet(free);
  }

  /** mappages failed: the frame goes back, tables it added stay. */
  lemma CloneFail(end: int, mem0: Mem, free0: seq<int>, t0: Tree, f0: map<nat, int>, n: nat,
                  mem: Mem, free: seq<int>, t1: Tree, f1: map<nat, int>, k: nat,
                  page: int, free1: seq<int>, mem2: Mem, mem3: Mem, free3: seq<int>, t3: Tree, mem4: Mem,
                  junk: seq<int>)
    requires Cloning(end, mem0, free0, t0, f0, n, mem, free, t1, f1, k) && k < n
    requires free == [page] + free1 && page !in free1 && page !in t1
    requires page in mem && mem2 == mem[page := mem[Pa(f0[k])]]
    requires Grown(mem2, free1, t1, mem3, free3, t3) && (forall p | p in t3 :: p !in free3) && page in mem3
    requires mem4 == mem3[page := junk]
    ensures Cloning(end, mem0, free0, t0, f0, n, mem4, [page] + free3, t3, f1, k)
    ensures SameHeld(free, t1, f1, [page] + free3, t3, f1)
  {
    Shrinks(t1, free1, t3, free3);
    KeepImage(end, f1, t1, free, free1, page, t3, free3, k);
    assert ToSet([page] + free3) <= ToSet(free) by {
      forall p | p in ToSet([page] + free3) ensures p in ToSet(free) { assert p != page ==> p in ToSet(free3); }
    }
    CloneParent(end, mem0, free0, t0, f0, n, mem, free, t1, f1, k, [page] + free3, t3);
    CloneFrames(end, mem0, free0, t0, f0, n, mem, free, t1, f1, k, page, free1, mem2, mem3, free3, t3);
    assert page in ToSet(free);
    assert forall v: nat | v < n :: Pa(f0[v]) != page;
    assert forall v: nat | v < k :: Pa(f1[v]) != page;
  }

  /** The child is emptied again: its frames are free, the parent is as it was. */
  lemma CloneUndo(end: int, mem0: Mem, free0: seq<int>, t0: Tree, f0: map<nat, int>, n: nat,
                  mem: Mem, free: seq<int>, t1: Tree, f1: map<nat, int>, k: nat, mem': Mem, free': seq<int>)
    requires Cloning(end, mem0, free0, t0, f0, n, mem, free, t1, f1, k)
    requires FreedFrom(f1, 0, k, free, free') && Kept(mem, mem', t1.Keys + ToSet(free'))
    ensures Image(end, f0, t0, free', n) && (forall p | p in t0 :: p !in t1 && p !in free')
    ensures forall v: nat | v < n :: Pa(f0[v]) in mem0 && Pa(f0[v]) in mem' && mem'[Pa(f0[v])] == mem0[Pa(f0[v])]
  {
    forall p | p in free' ensures p in free0 {
      if p in free {
        assert p in ToSet(free);
      } else {
        var v :| v in f1 && 0 <= v < 0 + k && Pa(f1[v]) == p;
      }
    }
  }

  lemma FramesOk(end: int, mem: Mem, head: int, free: seq<int>, f: map<nat, int>, t: Tree, n: nat)
    requires FreeOk(end, mem, head, free) && Image(end, f, t, free, n)
    ensures forall v: nat | v < n :: v in f && Pa(f[v]) in mem
  {
    forall v: nat | v < n ensures v in f && Pa(f[v]) in mem { assert PageOk(mem, Pa(f[v])); }
  }

  lemma SameOnTrans(f: map<nat, int>, g: map<nat, int>, h: map<nat, int>, k: nat)
    requires SameOn(f, g, 0) && SameOn(g, h, k)
    ensures SameOn(f, h, 0)
  {
  }

  /** Taking the copied pages away leaves what the child had at the start. */
  lemma HighOnly(end: int, f: map<nat, int>, t: Tree, free: seq<int>, g: map<nat, int>, t': Tree, free': seq<int>,
                 k: nat)
    requires Image(end, f, t, free, 0) && Image(end, g, t', free', k) && SameOn(f, g, 0) && k <= KERNPAGE
    ensures UnmapRange(g, 0, k) == f
  {
    var h := UnmapRange(g, 0, k);
    forall v: nat ensures v in h <==> v in f { assert v in h ==> v >= KERNPAGE; }
    assert h.Keys == f.Keys;
  }

  lemma CloneImage(end: int, mem0: Mem, free0: seq<int>, t0: Tree, f0: map<nat, int>, n: nat,
                   mem: Mem, free: seq<int>, t1: Tree, f1: map<nat, int>, k: nat)
    requires Cloning(end, mem0, free0, t0, f0, n, mem, free, t1, f1, k) && KERNBASE <= end
    ensures Image(end, f1, t1, free, k) && Private(f1, 0, k, t1, free) && k <= KERNPAGE
    ensures forall p | p in t0 :: p !in t1
  {
    ImageFits(end, f1, t1, free, k);
  }

  lemma ParentApart(end: int, mem: Mem, mem': Mem, root: int, t0: Tree, t1: Tree, free: seq<int>, free': seq<int>)
    requires Space(end, mem, free, root, t0) && Kept(mem, mem', t1.Keys + ToSet(free'))
    requires forall p | p in t0 :: p !in t1 && p !in free'
    ensures Space(end, mem', free', root, t0) && Flat(mem', root, t0) == Flat(mem, root, t0)
  {
    forall p | p in t0 ensures p in mem' && mem'[p] == mem[p] { assert p !in t1.Keys + ToSet(free'); }
    Outside(mem, mem', root, t0);
  }

  lemma CloneDone(end: int, mem0: Mem, free0: seq<int>, t0: Tree, f0: map<nat, int>, n: nat,
                  mem: Mem, free: seq<int>, t1: Tree, f1: map<nat, int>)
    requires Cloning(end, mem0, free0, t0, f0, n, mem, free, t1, f1, n)
    ensures Image(end, f0, t0, free, n) && Image(end, f1, t1, free, n)
    ensures forall v: nat | v < n ::
      v in f0 && Pa(f0[v]) in mem0 && Pa(f0[v]) in mem && mem[Pa(f0[v])] == mem0[Pa(f0[v])]
    ensures forall v: nat | v < n ::
      v in f1 && Flags(f1[v]) == Flags(f0[v]) && Pa(f1[v]) in mem && mem[Pa(f1[v])] == mem0[Pa(f0[v])]
  {
  }

  /** What uvmunmap has kept after `m` of `n` pages. */
  ghost predicate Unmapping(end: int, mem0: Mem, free0: seq<int>, t: Tree, f: map<nat, int>, v0: nat, n: nat,
                            dofree: bool, mem: Mem, free: seq<int>, m: nat)
    requires m <= n
  {
    && (dofree ==>
          && Private(UnmapRange(f, v0, m), v0 + m, n - m, t, free) && AllFreed(f, v0, m, free)
          && SameHeld(free0, t, f, free, t, UnmapRange(f, v0, m)))
    && (!dofree ==> free == free0)
    && FreedFrom(f, v0, m, free0, free) && NoneStuck(end, f, v0, m, dofree)
    && ToSet(free0) <= ToSet(free) && |free| >= |free0| && Kept(mem0, mem, t.Keys + ToSet(free))
  }

  /** How far uvmunmap can get at most. */
  lemma SafeLength(end: int, f: map<nat, int>, v0: nat, npages: nat, t: Tree, free: seq<int>, dofree: bool)
    returns (n: nat)
    requires dofree ==> Guarded(end, f, v0, npages, t, free)
    ensures n <= npages && (n < npages ==> Stuck(end, f, v0 + n, dofree)) && (dofree ==> Private(f, v0, n, t, free))
  {
    if dofree {
      n :| n <= npages && (n < npages ==> Stuck(end, f, v0 + n, true)) && Private(f, v0, n, t, free);
    } else {
      n := npages;
    }
  }

  lemma UnmapStart(end: int, mem: Mem, free: seq<int>, t: Tree, f: map<nat, int>, v0: nat, n: nat, dofree: bool)
    requires dofree ==> Private(f, v0, n, t, free)
    ensures Unmapping(end, mem, free, t, f, v0, n, dofree, mem, free, 0)
  {
    SameHeldRefl(free, t, f);
  }

  lemma UnmapEnd(end: int, mem0: Mem, free0: seq<int>, t: Tree, f: map<nat, int>, v0: nat, n: nat, dofree: bool,
                 mem: Mem, free: seq<int>, m: nat)
    requires m <= n && Unmapping(end, mem0, free0, t, f, v0, n, dofree, mem, free, m)
    ensures if dofree then SameHeld(free0, t, f, free, t, UnmapRange(f, v0, m)) else free == free0
    ensures FreedFrom(f, v0, m, free0, free) && NoneStuck(end, f, v0, m, dofree)
    ensures dofree ==> AllFreed(f, v0, m, free)
    ensures ToSet(free0) <= ToSet(free) && |free| >= |free0| && Kept(mem0, mem, t.Keys + ToSet(free))
    ensures dofree && m < n && v0 + m in UnmapRange(f, v0, m) ==>
      Pa(UnmapRange(f, v0, m)[v0 + m]) !in t && Pa(UnmapRange(f, v0, m)[v0 + m]) !in free
  {
    hide SameHeld, FreedFrom, NoneStuck, AllFreed, Kept, UnmapRange, Private;
    if dofree && m < n { PrivateAt(UnmapRange(f, v0, m), v0 + m, n - m, t, free); }
  }

  lemma UnmapStep(end: int, mem0: Mem, free0: seq<int>, t: Tree, f: map<nat, int>, v0: nat, n: nat, dofree: bool,
                  mem: Mem, free: seq<int>, m: nat, mem': Mem, free': seq<int>)
    requires m < n && Unmapping(end, mem0, free0, t, f, v0, n, dofree, mem, free, m)
    requires !Stuck(end, f, v0 + m, dofree) && v0 + m in f && free' == (if dofree then [Pa(f[v0 + m])] else []) + free
    requires ToSet(free) <= ToSet(free') && Kept(mem, mem', t.Keys + ToSet(free'))
    ensures Unmapping(end, mem0, free0, t, f, v0, n, dofree, mem', free', m + 1)
  {
    hide SameHeld, FreedFrom, NoneStuck, AllFreed, Kept, UnmapRange, Private, Stuck;
    UnmapRangeStep(end, f, v0, m, dofree);
    KeptTrans(mem0, mem, mem', t.Keys, ToSet(free), ToSet(free'));
    FreedFromStep(f, v0, m, free0, free, free');
    NoneStuckStep(end, f, v0, m, dofree);
    if dofree {
      FreeOne(free, t, f, v0, m, n);
      AllFreedStep(f, v0, m, free, free');
      SameHeldTrans(free0, t, f, free, t, UnmapRange(f, v0, m), free', t, UnmapRange(f, v0, m + 1));
    }
  }

  class Machine {
    const end: int
    var mem: Mem
    var freelist: int
    ghost var free: seq<int>

    ghost predicate Ok()
      reads this
    {
      FreeOk(end, mem, freelist, free)
    }

    method Kalloc() returns (r: int)
      requires Ok()
      modifies this
      ensures Ok()
      ensures old(free) == [] ==> r == 0 && mem == old(mem) && free == old(free)
      ensures old(free) != [] ==>
        r == old(free)[0] && free == old(free)[1..] && mem == old(mem)[r := Filled(JUNK_ALLOC)]
    {
      r := freelist;
      if r != 0 {
        FreeTail(end, mem, free);
        assert LinkOk(mem, free, 0);
        freelist := mem[r][0];
        free := free[1..];
        mem := mem[r := Filled(JUNK_ALLOC)];
        FreeFrame(end, old(mem), mem, freelist, free, {r});
      }
    }

    /** kfree: the page becomes the head of the list. A page that is free already closes the list into a cycle. */
    method Kfree(pa: int) returns (st: Status)
      requires Ok()
      modifies this
      ensures st == if InRange(end, pa) then Done else Panic
      ensures st.Panic? ==> Ok() && mem == old(mem) && free == old(free) && freelist == old(freelist)
      ensures st.Done? ==> freelist == pa && mem == old(mem)[pa := Filled(JUNK_FREE)[0 := old(freelist)]]
      ensures st.Done? && pa !in old(free) ==> Ok() && free == [pa] + old(free)
      ensures st.Done? && pa in old(free) ==> forall l :: !FreeOk(end, mem, freelist, l)
    {
      if pa % PGSIZE != 0 || pa < end || pa >= PHYSTOP { return Panic; }
      mem := mem[pa := Filled(JUNK_FREE)];
      mem := mem[pa := mem[pa][0 := freelist]];
      freelist := pa;
      free := [pa] + free;
      if pa in old(free) {
        forall l
          ensures !FreeOk(end, mem, freelist, l)
        { DoubleFree(end, old(mem), old(freelist), old(free), pa, mem, l); }
      } else {
        forall i | 0 <= i < |free| ensures LinkOk(mem, free, i) {
          if i > 0 { assert LinkOk(old(mem), old(free), i - 1); }
        }
      }
      return Done;
    }

    /** The middle of walk: a zeroed page hung under the empty entry `i` of `table`. */
    method AddTable(root: int, table: int, i: nat, ghost t: Tree, ghost level: nat, ghost v: nat)
      returns (page: int, ghost t': Tree)
      requires Ok() && Space(end, mem, free, root, t) && v < NVPN && 0 < level <= 2
      requires TableAt(mem, root, t, level, v) == Some(table) && i == PX(level, v) && !Valid(mem[table][i])
      modifies this
      ensures Ok() && Space(end, mem, free, root, t')
      ensures page == 0 ==> free == [] == old(free) && mem == old(mem) && t' == t
      ensures page != 0 ==> TableAt(mem, root, t', level - 1, v) == Some(page)
      ensures |free| >= |old(free)| - 1
      ensures SameLeaves(old(mem), t, mem, t', root)
      ensures Grown(old(mem), old(free), t, mem, free, t')
    {
      t' := t;
      page := Kalloc();
      if page == 0 { return; }
      mem := mem[page := Filled(0)];
      mem := Poke(mem, table, i, Pte(page, PTE_V));
      t' := LinkedTree(t, table, i, page);
      assert mem == Linked(old(mem), table, i, page);
      GrowSpace(end, old(mem), old(free), root, t, level, v, table);
    }

    /** walk: the slot of `va`'s leaf, creating missing tables when `alloc`. */
    method Walk(root: int, va: nat, alloc: bool, ghost t: Tree) returns (r: WalkResult, ghost t': Tree)
      requires Ok() && Space(end, mem, free, root, t)
      modifies this
      ensures Ok() && Space(end, mem, free, root, t')
      ensures r.WalkPanic? <==> va >= MAXVA
      ensures r.Slot? ==> TableAt(mem, root, t', 0, va / PGSIZE) == Some(r.page) && r.index == PX(0, va / PGSIZE)
      ensures SameLeaves(old(mem), t, mem, t', root)
      ensures r.NoPte? ==> TableAt(mem, root, t', 0, va / PGSIZE) == None && (alloc ==> free == [] && |old(free)| <= 1)
      ensures |free| >= |old(free)| - 2
      ensures !alloc || r.WalkPanic? ==> mem == old(mem) && free == old(free) && t' == t
      ensures Grown(old(mem), old(free), t, mem, free, t')
    {
      t' := t;
      if va >= MAXVA { return WalkPanic, t'; }
      var table, level := root, 2;
      ghost var v := va / PGSIZE;
      while level > 0
        invariant 0 <= level <= 2
        invariant Ok() && Space(end, mem, free, root, t')
        invariant TableAt(mem, root, t', level, v) == Some(table)
        invariant |free| >= |old(free)| - (2 - level)
        invariant SameLeaves(old(mem), t, mem, t', root)
        invariant !alloc ==> mem == old(mem) && free == old(free) && t' == t
        invariant Grown(old(mem), old(free), t, mem, free, t')
      {
        var i := PX(level, va / PGSIZE);
        var pte := mem[table][i];
        Descend(mem, root, t', level, v, table);
        if Valid(pte) {
          table := Pa(pte);
        } else {
          if !alloc {
            return NoPte, t';
          }
          var page;
          page, t' := AddTable(root, table, i, t', level, v);
          if page == 0 { return NoPte, t'; }
          table := page;
        }
        level := level - 1;
      }
      return Slot(table, PX(0, va / PGSIZE)), t';
    }

    method Walkaddr(root: int, va: nat, ghost t: Tree) returns (pa: int)
      requires Ok() && Space(end, mem, free, root, t)
      modifies this
      ensures Ok() && mem == old(mem) && free == old(free)
      ensures var f, v := Flat(mem, root, t), va / PGSIZE;
        pa == if v in f && User(f[v]) then Pa(f[v]) else 0
    {
      if va >= MAXVA { return 0; }
      var r;
      ghost var t';
      r, t' := Walk(root, va, false, t);
      FlatAt(mem, root, t, va / PGSIZE);
      if r == NoPte { return 0; }
      var pte := mem[r.page][r.index];
      if !Valid(pte) || !User(pte) { return 0; }
      return Pa(pte);
    }

    /** One round of mappages: walk, check, store. */
    method MapPage(root: int, a: nat, pa: int, perm: nat, ghost v: nat, ghost t: Tree)
      returns (st: Status, ghost t': Tree)
      requires Ok() && Space(end, mem, free, root, t) && perm < 1024 && a / PGSIZE == v
      modifies this
      ensures Ok() && Space(end, mem, free, root, t')
      ensures var f := Flat(old(mem), root, t);
        && (st.Panic? <==> v >= NVPN || v in f)
        && (st.NoMemory? ==> free == [] && |old(free)| <= 1) && |free| >= |old(free)| - 2
        && Flat(mem, root, t') == if st.Done? then f[v := Pte(pa, WithV(perm))] else f
      ensures Grown(old(mem), old(free), t, mem, free, t')
    {
      var r;
      r, t' := Walk(root, a, true, t);
      PageBound(a);
      SameFlat(old(mem), t, mem, t', root);
      if r == WalkPanic { return Panic, t'; }
      FlatAt(mem, root, t', v);
      if r == NoPte { return NoMemory, t'; }
      if Valid(mem[r.page][r.index]) { return Panic, t'; }
      LeafWord(pa, perm);
      StoreLeaf(end, mem, freelist, free, root, t', r.page, v, Pte(pa, WithV(perm)));
      mem := Poke(mem, r.page, r.index, Pte(pa, WithV(perm)));
      return Done, t';
    }

    /** mappages: `m` counts the pages mapped before it stopped. */
    method Mappages(root: int, va: nat, size: nat, pa: int, perm: nat, ghost t: Tree)
      returns (st: Status, ghost t': Tree, ghost m: nat)
      requires Ok() && Space(end, mem, free, root, t) && perm < 1024
      modifies this
      ensures Ok() && Space(end, mem, free, root, t')
      ensures var f, v0 := Flat(old(mem), root, t), va / PGSIZE;
        && Flat(mem, root, t') == MapRange(f, v0, pa, WithV(perm), m)
        && Unmapped(f, v0, m)
        && (m > 0 ==> v0 + m <= (va + size - 1) / PGSIZE + 1)
        && (st.Done? <==> m > 0 && v0 + m == (va + size - 1) / PGSIZE + 1)
        && (st.Panic? <==> size == 0 || (v0 + m <= (va + size - 1) / PGSIZE && (v0 + m >= NVPN || v0 + m in f)))
      ensures |free| >= |old(free)| - 2 * m - 2 && (st.Done? ==> |free| >= |old(free)| - 2 * m)
      ensures st.NoMemory? ==> free == [] && |old(free)| <= 2 * m + 1
      ensures Grown(old(mem), old(free), t, mem, free, t')
    {
      hide Wf, FreeOk, IsFlat, Grown, MapRange, Unmapped;
      t', m := t, 0;
      ghost var f, v0, y := Flat(mem, root, t), va / PGSIZE, (va + size - 1) / PGSIZE;
      GrownRefl(mem, free, t);
      MapRangeStep(f, v0, pa, WithV(perm), 0);
      if size == 0 { return Panic, t', m; }
      var a, last, p := va / PGSIZE * PGSIZE, (va + size - 1) / PGSIZE * PGSIZE, pa;
      while true
        invariant a == (v0 + m) * PGSIZE && last == y * PGSIZE && p == pa + m * PGSIZE && v0 + m <= y
        invariant Ok() && Space(end, mem, free, root, t')
        invariant Flat(mem, root, t') == MapRange(f, v0, pa, WithV(perm), m)
        invariant Unmapped(f, v0, m) && |free| >= |old(free)| - 2 * m
        invariant Grown(old(mem), old(free), t, mem, free, t')
        decreases y - (v0 + m)
      {
        PageOf(a, v0 + m);
        MapRangeStep(f, v0, pa, WithV(perm), m);
        ghost var mem1, free1, t1 := mem, free, t';
        st, t' := MapPage(root, a, p, perm, v0 + m, t');
        GrownTrans(old(mem), old(free), t, mem1, free1, t1, mem, free, t');
        if st != Done { return st, t', m; }
        UnmappedStep(f, v0, m);
        m := m + 1;
        if a == last { break; }
        a, p := a + PGSIZE, p + PGSIZE;
      }
      return Done, t', m;
    }

    /** One round of uvmunmap. */
    method UnmapPage(root: int, a: nat, dofree: bool, ghost v: nat, ghost t: Tree) returns (st: Status)
      requires Ok() && Space(end, mem, free, root, t) && a / PGSIZE == v
      requires dofree && !Stuck(end, Flat(mem, root, t), v, true) ==>
        Pa(Flat(mem, root, t)[v]) !in t && Pa(Flat(mem, root, t)[v]) !in free
      modifies this
      ensures Ok() && Space(end, mem, free, root, t)
      ensures var f := Flat(old(mem), root, t);
        if Stuck(end, f, v, dofree) then st == Panic && mem == old(mem) && free == old(free)
        else
          && st == Done && Flat(mem, root, t) == f - {v}
          && free == (if dofree then [Pa(f[v])] else []) + old(free)
          && ToSet(old(free)) <= ToSet(free) && Kept(old(mem), mem, t.Keys + ToSet(free))
    {
      var r;
      ghost var t';
      r, t' := Walk(root, a, false, t);
      PageBound(a);
      if r == WalkPanic { return Panic; }
      FlatAt(mem, root, t, v);
      if r == NoPte { return Panic; }
      var pte := mem[r.page][r.index];
      if !Valid(pte) || Flags(pte) == PTE_V { return Panic; }
      if dofree {
        st := Kfree(Pa(pte));
        if st == Panic { return; }
        Outside(old(mem), mem, root, t);
      }
      StoreLeaf(end, mem, freelist, free, root, t, r.page, v, 0);
      mem := Poke(mem, r.page, r.index, 0);
      return Done;
    }

    /** uvmunmap: `m` counts the pages unmapped before it stopped. */
    method Uvmunmap(root: int, va: nat, npages: nat, dofree: bool, ghost t: Tree) returns (st: Status, ghost m: nat)
      requires Ok() && Space(end, mem, free, root, t)
      requires dofree ==> Guarded(end, Flat(mem, root, t), va / PGSIZE, npages, t, free)
      modifies this
      ensures Ok() && Space(end, mem, free, root, t)
      ensures var f, v0 := Flat(old(mem), root, t), va / PGSIZE;
        && Flat(mem, root, t) == UnmapRange(f, v0, m) && m <= npages && !st.NoMemory?
        && (st.Done? <==> va % PGSIZE == 0 && m == npages)
        && (st.Panic? <==> va % PGSIZE != 0 || (m < npages && Stuck(end, f, v0 + m, dofree)))
        && (if dofree then SameHeld(old(free), t, f, free, t, UnmapRange(f, v0, m)) else free == old(free))
      ensures FreedFrom(Flat(old(mem), root, t), va / PGSIZE, m, old(free), free)
      ensures ToSet(old(free)) <= ToSet(free) && |free| >= |old(free)| && Kept(old(mem), mem, t.Keys + ToSet(free))
      ensures NoneStuck(end, Flat(old(mem), root, t), va / PGSIZE, m, dofree) && (va % PGSIZE != 0 ==> m == 0)
      ensures dofree ==> AllFreed(Flat(old(mem), root, t), va / PGSIZE, m, free)
    {
      hide Wf, FreeOk, IsFlat, UnmapRange, Stuck, Private, Guarded, SameHeld, Kept, FreedFrom, NoneStuck, AllFreed,
           Unmapping;
      ghost var f, v0 := Flat(mem, root, t), va / PGSIZE;
      m := 0;
      UnmapRangeStep(end, f, v0, 0, dofree);
      ghost var n := SafeLength(end, f, v0, npages, t, free, dofree);
      UnmapStart(end, mem, free, t, f, v0, n, dofree);
      UnmapEnd(end, mem, free, t, f, v0, n, dofree, mem, free, 0);
      if va % PGSIZE != 0 { return Panic, m; }
      var a := va;
      while a < va + npages * PGSIZE
        invariant a == (v0 + m) * PGSIZE && m <= n <= npages
        invariant Ok() && Space(end, mem, free, root, t)
        invariant Flat(mem, root, t) == UnmapRange(f, v0, m)
        invariant Unmapping(end, old(mem), old(free), t, f, v0, n, dofree, mem, free, m)
        decreases npages - m
      {
        PageOf(a, v0 + m);
        UnmapRangeStep(end, f, v0, m, dofree);
        UnmapEnd(end, old(mem), old(free), t, f, v0, n, dofree, mem, free, m);
        ghost var free1, mem1 := free, mem;
        st := UnmapPage(root, a, dofree, v0 + m, t);
        if st == Panic { return Panic, m; }
        UnmapStep(end, old(mem), old(free), t, f, v0, n, dofree, mem1, free1, m, mem, free);
        m := m + 1;
        a := a + PGSIZE;
      }
      UnmapEnd(end, old(mem), old(free), t, f, v0, n, dofree, mem, free, m);
      return Done, m;
    }

    method Uvmcreate() returns (root: int, ghost t: Tree)
      requires Ok()
      modifies this
      ensures Ok()
      ensures old(free) == [] ==> root == 0 && free == []
      ensures old(free) != [] ==>
        && root != 0 && Space(end, mem, free, root, t) && Flat(mem, root, t) == map[]
        && SameHeld(old(free), map[], map[], free, t, map[])
    {
      t := map[];
      if free != [] { FreeTail(end, mem, free); }
      root := Kalloc();
      if root == 0 { return; }
      ghost var mem1 := mem;
      mem := mem[root := Filled(0)];
      FreeFrame(end, mem1, mem, freelist, free, {root});
      t := map[root := Node(2, 0)];
      EmptyTree(mem, root);
      assert old(free) == [root] + free;
    }

    /** uvmdealloc with any sizes: a panic exactly when some page of the range is not a mapped data page. From a process
        image of the old size it never panics and leaves an image of the new size. */
    method Uvmdealloc(root: int, oldsz: nat, newsz: nat, ghost t: Tree) returns (st: Status, r: nat)
      requires Ok() && Space(end, mem, free, root, t)
      requires Guarded(end, Flat(mem, root, t), PgUp(newsz), Gap(oldsz, newsz), t, free)
      modifies this
      ensures Ok() && Space(end, mem, free, root, t) && !st.NoMemory?
      ensures r == if newsz < oldsz then newsz else oldsz
      ensures st.Done? <==> NoneStuck(end, Flat(old(mem), root, t), PgUp(newsz), Gap(oldsz, newsz), true)
      ensures st.Done? ==> Flat(mem, root, t) == UnmapRange(Flat(old(mem), root, t), PgUp(newsz), Gap(oldsz, newsz))
      ensures Image(end, Flat(old(mem), root, t), t, old(free), PgUp(oldsz)) ==>
        st.Done? && PgUp(r) <= PgUp(oldsz) && Image(end, Flat(mem, root, t), t, free, PgUp(r))
        && Flat(mem, root, t) == UnmapRange(Flat(old(mem), root, t), PgUp(r), PgUp(oldsz) - PgUp(r))
      ensures SameHeld(old(free), t, Flat(old(mem), root, t), free, t, Flat(mem, root, t))
      ensures Kept(old(mem), mem, t.Keys + ToSet(free))
    {
      hide Wf, FreeOk, IsFlat, Stuck, Private, SameHeld, FreedFrom, Image, NoneStuck, UnmapRange;
      ghost var f := Flat(mem, root, t);
      SameHeldRefl(free, t, f);
      NoneStuckStep(end, f, PgUp(newsz), 0, true);
      UnmapRangeStep(end, f, PgUp(newsz), 0, true);
      UnmapRangeStep(end, f, PgUp(oldsz), 0, true);
      if newsz >= oldsz { return Done, oldsz; }
      PgUpMono(newsz, oldsz);
      if PgUp(newsz) < PgUp(oldsz) {
        var npages := PgUp(oldsz) - PgUp(newsz);
        PageOf(PgUp(newsz) * PGSIZE, PgUp(newsz));
        ghost var m;
        st, m := Uvmunmap(root, PgUp(newsz) * PGSIZE, npages, true, t);
        StuckAt(end, f, PgUp(newsz), npages, m);
        if Image(end, f, t, old(free), PgUp(oldsz)) {
          ShrinkImage(end, f, t, old(free), free, PgUp(newsz), PgUp(oldsz), m);
        }
        return st, newsz;
      }
      return Done, newsz;
    }

    /** The error path of one uvmalloc round: the page is freed, tables already added stay. */
    method PutBack(root: int, page: int, ghost t: Tree)
      requires Ok() && Space(end, mem, free, root, t) && page !in t && page !in free && InRange(end, page)
      modifies this
      ensures Ok() && Space(end, mem, free, root, t)
      ensures Flat(mem, root, t) == Flat(old(mem), root, t) && free == [page] + old(free)
      ensures Kept(old(mem), mem, {page})
    {
      var st := Kfree(page);
      Outside(old(mem), mem, root, t);
    }

    /** kalloc and memset as uvmalloc calls them. */
    method ZeroedPage(root: int, ghost t: Tree) returns (page: int)
      requires Ok() && Space(end, mem, free, root, t)
      modifies this
      ensures Ok() && Space(end, mem, free, root, t) && Flat(mem, root, t) == Flat(old(mem), root, t) && KERNBASE <= end
      ensures page == 0 ==> old(free) == [] && free == [] && mem == old(mem)
      ensures page != 0 ==>
        && old(free) == [page] + free && page !in free && page !in t && InRange(end, page)
        && mem == old(mem)[page := Filled(0)]
    {
      if free != [] { FreeTail(end, mem, free); }
      page := Kalloc();
      if page == 0 { return; }
      ghost var mem1 := mem;
      mem := mem[page := Filled(0)];
      FreeFrame(end, mem1, mem, freelist, free, {page});
      Outside(old(mem), mem, root, t);
    }

    /** One round of uvmalloc: a zeroed page mapped at page `k`, or the image as it was. */
    method GrowPage(root: int, a: nat, perm: nat, ghost k: nat, ghost t: Tree)
      returns (ok: bool, ghost t': Tree, ghost page: int)
      requires Ok() && Space(end, mem, free, root, t) && Image(end, Flat(mem, root, t), t, free, k)
      requires a == k * PGSIZE && 1 < perm < 1023 && perm % 2 == 0
      modifies this
      ensures Ok() && Space(end, mem, free, root, t')
      ensures var f := Flat(old(mem), root, t);
        && Flat(mem, root, t') == (if ok then f[k := Pte(page, perm + 1)] else f)
        && Image(end, Flat(mem, root, t'), t', free, if ok then k + 1 else k)
        && SameHeld(old(free), t, f, free, t', Flat(mem, root, t'))
      ensures ok ==> page in mem && mem[page] == Filled(0) && page % PGSIZE == 0 && |free| >= |old(free)| - 3
      ensures !ok ==> |old(free)| <= 2
      ensures SameData(old(mem), mem, Flat(old(mem), root, t), k)
    {
      hide Wf, IsFlat, SameHeld, Image, FreeOk, SameData, Kept;
      ghost var f := Flat(mem, root, t);
      t' := t;
      SameHeldRefl(free, t, f);
      var pg := ZeroedPage(root, t);
      page := pg;
      SameDataRefl(old(mem), f, k);
      if pg == 0 { return false, t', page; }
      ghost var free1, mem1 := free, mem;
      ImageFits(end, f, t, old(free), k);
      PageOf(a, k);
      LastPage(k);
      var st;
      ghost var m;
      st, t', m := Mappages(root, a, PGSIZE, pg, perm, t);
      TakenApart(t, free1, t', free);
      MapRangeStep(f, k, pg, perm + 1, 0);
      ghost var free2 := free;
      if st != Done {
        ghost var mem2 := mem;
        PutBack(root, pg, t');
        KeepImage(end, f, t, old(free), free1, pg, t', free2, k);
        GrewData(end, old(mem), mem1, mem2, mem, f, t, old(free), free1, k, pg);
        return false, t', page;
      }
      KeptNothing(mem, pg);
      StillZero(mem1, mem, t, free1, pg);
      GrewData(end, old(mem), mem1, mem, mem, f, t, old(free), free1, k, pg);
      GrowImage(end, f, t, old(free), free1, pg, t', free, k, perm + 1);
      return true, t', page;
    }

    /** uvmalloc: grow to `newsz`, or fail and leave the image as it was. */
    method Uvmalloc(root: int, oldsz: nat, newsz: nat, xperm: nat, ghost t: Tree)
      returns (r: nat, ghost t': Tree, ghost ok: bool)
      requires Ok() && Space(end, mem, free, root, t) && Image(end, Flat(mem, root, t), t, free, PgUp(oldsz))
      requires xperm in {0, 4, 8, 12}      // some of PTE_W and PTE_X
      modifies this
      ensures Ok() && Space(end, mem, free, root, t')
      ensures r == if newsz < oldsz then oldsz else if ok then newsz else 0
      ensures Image(end, Flat(mem, root, t'), t', free, PgUp(if ok && oldsz <= newsz then newsz else oldsz))
      ensures !ok ==> |old(free)| < 3 * (PgUp(newsz) - PgUp(oldsz))
      ensures SameOn(Flat(old(mem), root, t), Flat(mem, root, t'), PgUp(oldsz))
      ensures SameHeld(old(free), t, Flat(old(mem), root, t), free, t', Flat(mem, root, t'))
      ensures ok ==> Fresh(mem, Flat(mem, root, t'), PgUp(oldsz), PgUp(newsz), 1 + 2 + 16 + xperm)
      ensures SameData(old(mem), mem, Flat(old(mem), root, t), PgUp(oldsz))
    {
      hide Wf, IsFlat, SameHeld, Image, FreeOk, SameOn, Private, NoneStuck, UnmapRange, Gap, SameData, Fresh, Kept;
      ghost var f := Flat(mem, root, t);
      t', ok := t, true;
      SameHeldRefl(free, t, f);
      SameOnRefl(f, PgUp(oldsz));
      SameDataRefl(mem, f, PgUp(oldsz));
      NoneFresh(mem, f, oldsz, newsz, 19 + xperm);
      if newsz < oldsz { return oldsz, t', ok; }
      var base := PgUp(oldsz) * PGSIZE;
      var a := base;
      ghost var k := PgUp(oldsz);
      PgUpMono(oldsz, newsz);
      while a < newsz
        invariant a == k * PGSIZE && PgUp(oldsz) <= k <= PgUp(newsz)
        invariant Ok() && Space(end, mem, free, root, t') && Image(end, Flat(mem, root, t'), t', free, k)
        invariant SameOn(f, Flat(mem, root, t'), PgUp(oldsz)) && |free| >= |old(free)| - 3 * (k - PgUp(oldsz))
        invariant SameHeld(old(free), t, f, free, t', Flat(mem, root, t'))
        invariant Fresh(mem, Flat(mem, root, t'), PgUp(oldsz), k, 19 + xperm)
        invariant SameData(old(mem), mem, f, PgUp(oldsz))
        decreases newsz - a
      {
        ghost var free1, t1, f1, mem1 := free, t', Flat(mem, root, t'), mem;
        ghost var page;
        var done;
        done, t', page := GrowPage(root, a, PTE_R + PTE_U + xperm, k, t');
        SameHeldTrans(old(free), t, f, free1, t1, f1, free, t', Flat(mem, root, t'));
        SameDataTrans(old(mem), mem1, mem, f, f1, PgUp(oldsz), k);
        PgUpStep(k, newsz);
        EndAbove(end, mem, freelist, free);
        ImageFits(end, f1, t1, free1, k);
        if !done {
          RoundUp(k);
          RoundUp(PgUp(oldsz));
          ghost var free2, mem2 := free, mem;
          GapPrivate(end, f1, t', free, a, base);
          var st, sz := Uvmdealloc(root, a, base, t');
          SameHeldTrans(old(free), t, f, free2, t', f1, free, t', Flat(mem, root, t'));
          SameOnShrink(f, f1, PgUp(oldsz), k - PgUp(oldsz));
          KeptData(end, mem2, mem, f, Flat(mem, root, t'), t', free, PgUp(oldsz));
          SameOnRefl(f, PgUp(oldsz));
          SameDataTrans(old(mem), mem2, mem, f, f, PgUp(oldsz), PgUp(oldsz));
          return 0, t', false;
        }
        SameOnGrow(f, f1, PgUp(oldsz), k, Pte(page, PTE_R + PTE_U + xperm + 1));
        FreshNext(mem1, mem, f1, PgUp(oldsz), k, page, 19 + xperm);
        a, k := a + PGSIZE, k + 1;
      }
      PgUpAt(k, newsz);
      return newsz, t', ok;
    }

    /** The leaf of a mapped page, as uvmcopy reads it. */
    method ReadPte(root: int, va: nat, ghost t: Tree) returns (ok: bool, pte: int)
      requires Ok() && Space(end, mem, free, root, t)
      modifies this
      ensures Ok() && mem == old(mem) && free == old(free) && freelist == old(freelist)
      ensures var f, v := Flat(mem, root, t), va / PGSIZE; (ok <==> v in f) && (ok ==> pte == f[v] && Valid(pte))
    {
      pte := 0;
      var r;
      ghost var t';
      r, t' := Walk(root, va, false, t);
      PageBound(va);
      if r == WalkPanic { return false, pte; }
      FlatAt(mem, root, t, va / PGSIZE);
      if r == NoPte { return false, pte; }
      pte := mem[r.page][r.index];
      return Valid(pte), pte;
    }

    /** kalloc and memmove as uvmcopy calls them. */
    method CopiedPage(pa: int, parent: int, child: int, ghost t0: Tree, ghost t1: Tree) returns (page: int)
      requires Ok() && Space(end, mem, free, parent, t0) && Space(end, mem, free, child, t1) && pa in mem && pa !in free
      requires |mem[pa]| == 512
      modifies this
      ensures Ok() && Space(end, mem, free, parent, t0) && Space(end, mem, free, child, t1)
      ensures Flat(mem, parent, t0) == Flat(old(mem), parent, t0) && Flat(mem, child, t1) == Flat(old(mem), child, t1)
      ensures page == 0 ==> mem == old(mem) && free == old(free) == []
      ensures page != 0 ==>
        && old(free) == [page] + free && page !in free && page !in t0 && page !in t1 && InRange(end, page)
        && page in old(mem)
        && mem == old(mem)[page := old(mem)[pa]]
    {
      if free != [] { FreeTail(end, mem, free); }
      page := Kalloc();
      if page == 0 { return; }
      ghost var mem1 := mem;
      mem := mem[page := mem[pa]];
      FreeFrame(end, mem1, mem, freelist, free, {page});
      Outside(old(mem), mem, parent, t0);
      Outside(old(mem), mem, child, t1);
    }

    /** The error path of one uvmcopy round. */
    method GiveBack(page: int, parent: int, child: int, ghost t0: Tree, ghost t1: Tree)
      requires Ok() && Space(end, mem, free, parent, t0) && Space(end, mem, free, child, t1)
      requires page !in t0 && page !in t1 && page !in free && InRange(end, page)
      modifies this
      ensures Ok() && Space(end, mem, free, parent, t0) && Space(end, mem, free, child, t1)
      ensures free == [page] + old(free)
      ensures Flat(mem, parent, t0) == Flat(old(mem), parent, t0) && Flat(mem, child, t1) == Flat(old(mem), child, t1)
      ensures page in mem && mem == old(mem)[page := mem[page]]
    {
      var st := Kfree(page);
      Outside(old(mem), mem, parent, t0);
      Outside(old(mem), mem, child, t1);
    }

    /** One round of uvmcopy. */
    method CopyPage(parent: int, child: int, a: nat, ghost k: nat, ghost n: nat, ghost t0: Tree, ghost t1: Tree,
                    ghost mem0: Mem, ghost free0: seq<int>) returns (st: Status, ghost t': Tree)
      requires Ok() && Space(end, mem, free, parent, t0) && Space(end, mem, free, child, t1) && a == k * PGSIZE && k < n
      requires Cloning(end, mem0, free0, t0, Flat(mem, parent, t0), n, mem, free, t1, Flat(mem, child, t1), k)
      modifies this
      ensures Ok() && Space(end, mem, free, parent, t0) && Space(end, mem, free, child, t') && !st.Panic?
      ensures Flat(mem, parent, t0) == Flat(old(mem), parent, t0)
      ensures st.NoMemory? ==> Flat(mem, child, t') == Flat(old(mem), child, t1) && |old(free)| <= 2
      ensures st.Done? ==> |free| >= |old(free)| - 3
      ensures Cloning(end, mem0, free0, t0, Flat(mem, parent, t0), n, mem, free, t', Flat(mem, child, t'),
                      if st.Done? then k + 1 else k)
      ensures SameHeld(old(free), t1, Flat(old(mem), child, t1), free, t', Flat(mem, child, t'))
      ensures SameOn(Flat(old(mem), child, t1), Flat(mem, child, t'), k)
    {
      hide Wf, IsFlat, SameHeld, Image, FreeOk, Grown, Kept, Cloning, SameOn;
      t' := t1;
      ghost var f0, f1 := Flat(mem, parent, t0), Flat(mem, child, t1);
      SameHeldRefl(free, t1, f1);
      SameOnRefl(f1, k);
      EndAbove(end, mem, freelist, free);
      CloneFacts(end, mem0, free0, t0, f0, n, mem, free, t1, f1, k);
      PageOf(a, k);
      var ok, pte := ReadPte(parent, a, t0);
      if !ok { return Panic, t'; }
      FlagsBound(pte);
      FrameOk(end, mem, freelist, free, Pa(pte));
      var page := CopiedPage(Pa(pte), parent, child, t0, t1);
      if page == 0 { return NoMemory, t'; }
      ghost var free1, mem2 := free, mem;
      LastPage(k);
      ghost var m;
      st, t', m := Mappages(child, a, PGSIZE, page, Flags(pte), t1);
      MapRangeStep(f1, k, page, Flags(pte), 0);
      ParentKept(end, mem2, mem, parent, t0, t1, free1, free, t');
      if st != Done {
        ghost var mem3, free3 := mem, free;
        PageApart(mem2, free1, t1, mem3, free3, t', page);
        GiveBack(page, parent, child, t0, t');
        CloneFail(end, mem0, free0, t0, f0, n, old(mem), old(free), t1, f1, k, page, free1, mem2, mem3, free3, t', mem,
                  mem[page]);
        return NoMemory, t';
      }
      SameOnGrow(f1, f1, k, k, Pte(page, Flags(pte)));
      CloneStep(end, mem0, free0, t0, f0, n, old(mem), old(free), t1, f1, k, page, free1, mem2, mem, free, t');
      return Done, t';
    }

    /** uvmcopy: the child gets its own copy of the parent's first pages, or nothing: then the free list, the
        child's tables and its other mappings account for every page they had. The parent is untouched either way. */
    method Uvmcopy(parent: int, child: int, sz: nat, ghost t0: Tree, ghost t1: Tree) returns (r: int, ghost t': Tree)
      requires Ok() && Space(end, mem, free, parent, t0) && Space(end, mem, free, child, t1)
      requires forall p | p in t0 :: p !in t1
      requires Image(end, Flat(mem, parent, t0), t0, free, PgUp(sz)) && Image(end, Flat(mem, child, t1), t1, free, 0)
      requires forall v: nat | v < PgUp(sz) :: Pa(Flat(mem, parent, t0)[v]) !in t1
      modifies this
      ensures Ok() && Space(end, mem, free, parent, t0) && Space(end, mem, free, child, t')
      ensures var n, f0 := PgUp(sz), Flat(old(mem), parent, t0);
        && Flat(mem, parent, t0) == f0 && Image(end, f0, t0, free, n)
        && forall v: nat | v < n :: Pa(f0[v]) in old(mem) && Pa(f0[v]) in mem && mem[Pa(f0[v])] == old(mem)[Pa(f0[v])]
      ensures r == 0 ==> var n, f0, f1 := PgUp(sz), Flat(old(mem), parent, t0), Flat(mem, child, t');
        && Image(end, f1, t', free, n)
        && forall v: nat | v < n ::
             && Flags(f1[v]) == Flags(f0[v]) && Pa(f1[v]) in mem && Pa(f0[v]) in old(mem)
             && mem[Pa(f1[v])] == old(mem)[Pa(f0[v])]
      ensures r != 0 ==> r == -1 && Flat(mem, child, t') == Flat(old(mem), child, t1) && |old(free)| < 3 * PgUp(sz)
      ensures SameHeld(old(free), t1, Flat(old(mem), child, t1), free, t', Flat(mem, child, t'))
    {
      hide Wf, IsFlat, SameHeld, Image, FreeOk, Kept, Cloning, FreedFrom, Private, UnmapRange, SameOn, Stuck;
      ghost var f0, f1, n := Flat(mem, parent, t0), Flat(mem, child, t1), PgUp(sz);
      t' := t1;
      EndAbove(end, mem, freelist, free);
      SameOnRefl(f1, 0);
      SameHeldRefl(free, t1, f1);
      FramesOk(end, mem, freelist, free, f0, t0, n);
      CloneStart(end, mem, free, t0, f0, n, t1, f1);
      var i := 0;
      ghost var k := 0;
      while i < sz
        invariant i == k * PGSIZE && k <= n && Ok() && Space(end, mem, free, parent, t0)
        invariant Space(end, mem, free, child, t')
        invariant Flat(mem, parent, t0) == f0
        invariant Cloning(end, old(mem), old(free), t0, f0, n, mem, free, t', Flat(mem, child, t'), k)
        invariant SameHeld(old(free), t1, f1, free, t', Flat(mem, child, t')) && SameOn(f1, Flat(mem, child, t'), 0)
        invariant |free| >= |old(free)| - 3 * k
        decreases sz - i
      {
        PgUpStep(k, sz);
        ghost var free1, g1, t2 := free, Flat(mem, child, t'), t';
        var st;
        st, t' := CopyPage(parent, child, i, k, n, t0, t', old(mem), old(free));
        SameHeldTrans(old(free), t1, f1, free1, t2, g1, free, t', Flat(mem, child, t'));
        SameOnTrans(f1, g1, Flat(mem, child, t'), k);
        if st != Done {
          ghost var free2, mem2 := free, mem;
          CloneImage(end, old(mem), old(free), t0, f0, n, mem, free, t', g1, k);
          PageOf(0, 0);
          ghost var m;
          PageOf(i, k);
          PrivateGuarded(end, g1, 0, k, t', free);
          st, m := Uvmunmap(child, 0, i / PGSIZE, true, t');
          ShrinkImage(end, g1, t', free2, free, 0, k, m);
          CloneUndo(end, old(mem), old(free), t0, f0, n, mem2, free2, t', g1, k, mem, free);
          HighOnly(end, f1, t1, old(free), g1, t', free2, k);
          SameHeldTrans(old(free), t1, f1, free2, t', g1, free, t', Flat(mem, child, t'));
          ParentApart(end, mem2, mem, parent, t0, t', free2, free);
          return -1, t';
        }
        i, k := i + PGSIZE, k + 1;
      }
      PgUpAt(k, sz);
      CloneDone(end, old(mem), old(free), t0, f0, n, mem, free, t', Flat(mem, child, t'));
      return 0, t';
    }

    /** freewalk: every page of the subtree at `p` goes to the free list, nothing else changes. */
    method Freewalk(p: int, ghost n: Node, ghost t: Tree) returns (st: Status)
      requires Ok() && SubWf(mem, p, t, n) && NoLeaf(mem, t) && Loose(end, free, t)
      modifies this
      ensures Ok() && st == Done
      ensures forall q :: q in free <==> q in old(free) || q in t
      ensures Kept(old(mem), mem, t.Keys)
      decreases n.level
    {
      hide SubWf, NoLeaf, Loose, FreeOk, Walked, Kept;
      WalkedStart(mem, free, p, t, n);
      var i := 0;
      while i < 512
        invariant 0 <= i <= 512 && Ok()
        invariant Walked(old(mem), old(free), mem, free, p, t, n, i)
      {
        WalkedHas(old(mem), old(free), mem, free, p, t, n, i);
        var pte := mem[p][i];
        if Valid(pte) {
          WalkedEntry(end, old(mem), old(free), mem, free, p, t, n, i);
          ghost var mem1, free1 := mem, free;
          if !NoAccess(pte) { return Panic; }
          st := Freewalk(Pa(pte), Child(n, i), Sub(t, Child(n, i)));
          WalkedChild(old(mem), old(free), mem1, free1, mem, free, p, t, n, i);
          ghost var mem2 := mem;
          mem := Poke(mem, p, i, 0);
          KeptPoke(mem2, p, i, 0);
          WalkedFree(end, old(mem), old(free), mem2, mem, freelist, free, p, t, n, i + 1);
        } else {
          WalkedSkip(old(mem), old(free), mem, free, p, t, n, i);
        }
        i := i + 1;
      }
      WalkedEnd(end, old(mem), old(free), mem, free, p, t, n);
      ghost var mem1 := mem;
      st := Kfree(p);
      KeptMore(old(mem), mem1, mem, t.Keys, p);
    }

    method Uvmfree(root: int, sz: nat, ghost t: Tree) returns (st: Status)
      requires Ok() && Space(end, mem, free, root, t) && Image(end, Flat(mem, root, t), t, free, PgUp(sz))
      requires Only(Flat(mem, root, t), PgUp(sz))
      modifies this
      ensures Ok() && st == Done
      ensures SameHeld(old(free), t, Flat(old(mem), root, t), free, map[], map[])
    {
      hide Wf, FreeOk, IsFlat, Stuck, Private, SameHeld, Kept, FreedFrom, Image, Only, UnmapRange;
      ghost var f := Flat(mem, root, t);
      SameHeldRefl(free, t, f);
      NoneMapped(f, PgUp(sz));
      UnmapRangeStep(end, f, 0, 0, true);
      if sz > 0 {
        ImagePart(end, f, t, free, PgUp(sz), 0);
        PageOf(0, 0);
        ghost var m;
        PrivateGuarded(end, f, 0, PgUp(sz), t, free);
        st, m := Uvmunmap(root, 0, PgUp(sz), true, t);
        ShrinkImage(end, f, t, old(free), free, 0, PgUp(sz), m);
      }
      ghost var free1 := free;
      WholeSub(mem, root, t);
      st := Freewalk(root, Node(2, 0), t);
      AllFree(old(free), t, f, free1, free);
    }
  }
}
