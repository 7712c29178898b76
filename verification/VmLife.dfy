/** The whole life of an address space: create it, resize it at will, free it. */
module VmLife {
  import opened Option
  import opened Params
  import opened PageTree
  import opened Vm

  datatype Resize = Enlarge(sz: nat, writable: bool) | Shrink(sz: nat)

  /** The machine between two calls, and the flags each page of the image should have. */
  datatype Stage = Stage(mem: Mem, head: int, free: seq<int>, t: Tree, perms: seq<nat>)

  /** Each page of the image has its flags and, as nobody has written to it, holds zeros. */
  ghost predicate Painted(mem: Mem, f: map<nat, int>, perms: seq<nat>) {
    forall v | 0 <= v < |perms| ::
      v in f && f[v] % 1024 == perms[v] && f[v] / 1024 * 4096 in mem && ZeroPage(mem[f[v] / 1024 * 4096])
  }

  /** What a resize makes of the flags: new pages are valid, readable, for the user, and writable when asked for. */
  ghost function NextPerms(op: Resize, perms: seq<nat>, sz': nat): seq<nat> {
    var n := PgUp(sz');
    if n <= |perms| then perms[..n]
    else perms + seq(n - |perms|, _ => if op.Enlarge? && op.writable then 1 + 2 + 4 + 16 else 1 + 2 + 16)
  }

  /** What a resize makes of the size; an enlargement that fails had fewer than three free pages for each new one. */
  ghost predicate Resized(op: Resize, sz: nat, sz': nat, free: nat) {
    match op
    case Enlarge(newsz, _) =>
      if newsz < sz then sz' == sz else sz' == newsz || (sz' == sz && free < 3 * (PgUp(newsz) - PgUp(sz)))
    case Shrink(newsz) => sz' == if newsz < sz then newsz else sz
  }

  /** An address space of exactly `sz` bytes, rounded up: its pages, its tables and the free list are the pages that
      were free at the start, each once. */
  ghost predicate Living(end: int, root: int, free0: seq<int>, s: Stage, sz: nat) {
    && FreeOk(end, s.mem, s.head, s.free) && Space(end, s.mem, s.free, root, s.t)
    && var f := Flat(s.mem, root, s.t);
       && Image(end, f, s.t, s.free, PgUp(sz)) && Only(f, PgUp(sz)) && SameHeld(free0, map[], map[], s.free, s.t, f)
       && |s.free| + |s.t| + PgUp(sz) == |free0| && |s.perms| == PgUp(sz) && Painted(s.mem, f, s.perms)
  }

  ghost predicate Lives(end: int, root: int, free0: seq<int>, stages: seq<Stage>, ops: seq<Resize>, sizes: seq<nat>) {
    && |stages| == |sizes| == |ops| + 1 && sizes[0] == 0
    && (forall k | 0 <= k < |stages| :: Living(end, root, free0, stages[k], sizes[k]))
    && (forall k | 0 <= k < |ops| ::
          && Resized(ops[k], sizes[k], sizes[k + 1], |stages[k].free|)
          && stages[k + 1].perms == NextPerms(ops[k], stages[k].perms, sizes[k + 1]))
  }

  lemma {:induction false} Distinct(s: seq<int>)
    requires forall i, j | 0 <= i < j < |s| :: s[i] != s[j]
    ensures |ToSet(s)| == |s|
    decreases |s|
  {
    if s != [] {
      var n := |s| - 1;
      Distinct(s[..n]);
      assert ToSet(s) == ToSet(s[..n]) + {s[n]} && s[n] !in ToSet(s[..n]);
    }
  }

  ghost function Frames(f: map<nat, int>, n: nat): set<int> { set v | v in f && v < n :: Pa(f[v]) }

  lemma {:induction false} CountFrames(f: map<nat, int>, n: nat, t: Tree, free: seq<int>)
    requires (forall v: nat | v < n :: v in f) && Private(f, 0, n, t, free)
    ensures |Frames(f, n)| == n
  {
    hide Pa;
    if n == 0 {
      assert Frames(f, n) == {};
    } else {
      CountFrames(f, n - 1, t, free);
      assert Frames(f, n) == Frames(f, n - 1) + {Pa(f[n - 1])};
      assert Pa(f[n - 1]) !in Frames(f, n - 1);
    }
  }

  /** Pages are conserved by number. */
  lemma CountPages(end: int, mem: Mem, head: int, free: seq<int>, root: int, t: Tree, n: nat, free0: seq<int>)
    requires FreeOk(end, mem, head, free) && Space(end, mem, free, root, t)
    requires Image(end, Flat(mem, root, t), t, free, n)
    requires Only(Flat(mem, root, t), n) && SameHeld(free0, map[], map[], free, t, Flat(mem, root, t))
    requires forall i, j | 0 <= i < j < |free0| :: free0[i] != free0[j]
    ensures |free| + |t| + n == |free0|
  {
    hide Wf, IsFlat;
    var f := Flat(mem, root, t);
    Distinct(free);
    Distinct(free0);
    CountFrames(f, n, t, free);
    SplitPages(free0, free, t, f, n);
    var a, b, c := ToSet(free), t.Keys, Frames(f, n);
    assert a !! b && (a + b) !! c;
    assert |a + b + c| == |a| + |b| + |c|;
  }

  lemma SplitPages(free0: seq<int>, free: seq<int>, t: Tree, f: map<nat, int>, n: nat)
    requires Only(f, n) && SameHeld(free0, map[], map[], free, t, f)
    ensures ToSet(free0) == ToSet(free) + t.Keys + Frames(f, n)
  {
    forall p ensures p in ToSet(free0) <==> p in ToSet(free) + t.Keys + Frames(f, n) {
      assert Held(free0, map[], map[], p) <==> Held(free, t, f, p);
    }
  }

  lemma Alive(end: int, mem: Mem, head: int, free: seq<int>, root: int, t: Tree, sz: nat, free0: seq<int>,
              perms: seq<nat>)
    requires FreeOk(end, mem, head, free) && Space(end, mem, free, root, t)
    requires Image(end, Flat(mem, root, t), t, free, PgUp(sz)) && Only(Flat(mem, root, t), PgUp(sz))
    requires SameHeld(free0, map[], map[], free, t, Flat(mem, root, t)) && ListDistinct(free0)
    requires |perms| == PgUp(sz) && Painted(mem, Flat(mem, root, t), perms)
    ensures Living(end, root, free0, Stage(mem, head, free, t, perms), sz)
  {
    hide Wf, FreeOk, IsFlat, SameHeld, Image, Only, Painted;
    CountPages(end, mem, head, free, root, t, PgUp(sz), free0);
  }

  ghost predicate ListDistinct(free: seq<int>) { forall i, j | 0 <= i < j < |free| :: free[i] != free[j] }

  lemma ListFacts(end: int, mem: Mem, head: int, free: seq<int>)
    requires FreeOk(end, mem, head, free)
    ensures ListDistinct(free)
  {
  }

  lemma LivesNext(end: int, root: int, free0: seq<int>, stages: seq<Stage>, ops: seq<Resize>, sizes: seq<nat>,
                  s: Stage, op: Resize, sz: nat)
    requires Lives(end, root, free0, stages, ops, sizes) && Living(end, root, free0, s, sz)
    requires Resized(op, sizes[|ops|], sz, |stages[|ops|].free|)
    requires s.perms == NextPerms(op, stages[|ops|].perms, sz)
    ensures Lives(end, root, free0, stages + [s], ops + [op], sizes + [sz])
  {
    hide Living, Resized, NextPerms;
    var stages', ops', sizes' := stages + [s], ops + [op], sizes + [sz];
    forall k | 0 <= k < |ops'|
      ensures Resized(ops'[k], sizes'[k], sizes'[k + 1], |stages'[k].free|)
      ensures stages'[k + 1].perms == NextPerms(ops'[k], stages'[k].perms, sizes'[k + 1])
    {
      assert k < |ops| ==> ops'[k] == ops[k] && sizes'[k + 1] == sizes[k + 1] && stages'[k] == stages[k];
      assert k < |ops| ==> stages'[k + 1] == stages[k + 1];
    }
  }

  lemma LivesFirst(end: int, root: int, free0: seq<int>, s: Stage)
    requires Living(end, root, free0, s, 0)
    ensures Lives(end, root, free0, [s], [], [0])
  {
  }

  lemma NonePainted(mem: Mem, f: map<nat, int>)
    ensures Painted(mem, f, [])
  {
  }

  lemma PermsSize(op: Resize, perms: seq<nat>, sz': nat)
    ensures |NextPerms(op, perms, sz')| == PgUp(sz')
  {
  }

  lemma SameCount(free0: seq<int>, free: seq<int>)
    requires ListDistinct(free0) && ListDistinct(free) && ToSet(free0) == ToSet(free)
    ensures |free0| == |free|
  {
    Distinct(free0);
    Distinct(free);
  }

  lemma PaintGrown(mem: Mem, mem': Mem, f: map<nat, int>, g: map<nat, int>, op: Resize, perms: seq<nat>, n: nat,
                   sz': nat)
    requires Painted(mem, f, perms) && |perms| == n <= PgUp(sz') && SameOn(f, g, n) && SameData(mem, mem', f, n)
    requires op.Enlarge? && (n < PgUp(sz') ==> Fresh(mem', g, n, PgUp(sz'), if op.writable then 23 else 19))
    ensures Painted(mem', g, NextPerms(op, perms, sz'))
  {
    var perms' := NextPerms(op, perms, sz');
    forall v | 0 <= v < |perms'|
      ensures v in g && g[v] % 1024 == perms'[v] && g[v] / 1024 * 4096 in mem' && ZeroPage(mem'[g[v] / 1024 * 4096])
    {
      if v < n { assert f[v] == g[v] && Pa(f[v]) in mem; }
    }
  }

  lemma PaintShrunk(end: int, mem: Mem, mem': Mem, f: map<nat, int>, op: Resize, t: Tree, free: seq<int>,
                    perms: seq<nat>, n: nat, sz': nat)
    requires Painted(mem, f, perms) && |perms| == n && PgUp(sz') <= n <= KERNPAGE
    requires var g := UnmapRange(f, PgUp(sz'), n - PgUp(sz')); Image(end, g, t, free, PgUp(sz'))
    requires Kept(mem, mem', t.Keys + ToSet(free))
    ensures Painted(mem', UnmapRange(f, PgUp(sz'), n - PgUp(sz')), NextPerms(op, perms, sz'))
  {
    hide Image, Kept, UnmapRange, SameOn, SameData;
    var m := PgUp(sz');
    var g := UnmapRange(f, m, n - m);
    SameOnRefl(f, m);
    SameOnShrink(f, f, m, n - m);
    KeptData(end, mem, mem', f, g, t, free, m);
    PaintPart(mem, mem', f, g, perms, m);
  }

  lemma PaintPart(mem: Mem, mem': Mem, f: map<nat, int>, g: map<nat, int>, perms: seq<nat>, m: nat)
    requires Painted(mem, f, perms) && m <= |perms| && SameOn(f, g, m) && SameData(mem, mem', f, m)
    ensures Painted(mem', g, perms[..m])
  {
    forall v | 0 <= v < m
      ensures v in g && g[v] % 1024 == perms[v] && g[v] / 1024 * 4096 in mem' && ZeroPage(mem'[g[v] / 1024 * 4096])
    {
      assert f[v] == g[v] && Pa(f[v]) in mem;
    }
  }

  /** One resize, as growproc makes it: the size changes unless uvmalloc returns 0. */
  method Step(k: Machine, root: int, op: Resize, sz: nat, ghost t: Tree, ghost free0: seq<int>, ghost perms: seq<nat>)
    returns (sz': nat, ghost t': Tree)
    requires k.Ok() && Space(k.end, k.mem, k.free, root, t)
    requires Image(k.end, Flat(k.mem, root, t), t, k.free, PgUp(sz)) && Only(Flat(k.mem, root, t), PgUp(sz))
    requires SameHeld(free0, map[], map[], k.free, t, Flat(k.mem, root, t))
    requires |perms| == PgUp(sz) && Painted(k.mem, Flat(k.mem, root, t), perms)
    modifies k
    ensures k.Ok() && Space(k.end, k.mem, k.free, root, t') && Resized(op, sz, sz', |old(k.free)|)
    ensures Painted(k.mem, Flat(k.mem, root, t'), NextPerms(op, perms, sz'))
    ensures Image(k.end, Flat(k.mem, root, t'), t', k.free, PgUp(sz')) && Only(Flat(k.mem, root, t'), PgUp(sz'))
    ensures SameHeld(free0, map[], map[], k.free, t', Flat(k.mem, root, t'))
  {
    hide Wf, FreeOk, IsFlat, SameHeld, Kept, Image, SameOn, UnmapRange, Only, Guarded, NoneStuck, Gap, Painted,
         NextPerms, SameData, Fresh;
    ghost var free1, f1, mem1 := k.free, Flat(k.mem, root, t), k.mem;
    t', sz' := t, sz;
    EndAbove(k.end, k.mem, k.freelist, k.free);
    ImageFits(k.end, f1, t, free1, PgUp(sz));
    match op {
      case Enlarge(newsz, writable) =>
        var r;
        ghost var ok;
        r, t', ok := k.Uvmalloc(root, sz, newsz, if writable then 4 else 0, t);
        if r != 0 { sz' := r; }
        OnlyKept(k.end, f1, Flat(k.mem, root, t'), t', k.free, PgUp(sz), PgUp(sz), PgUp(sz'));
        if sz < sz' { PgUpMono(sz, sz'); }
        PaintGrown(mem1, k.mem, f1, Flat(k.mem, root, t'), op, perms, PgUp(sz), sz');
      case Shrink(newsz) =>
        GapPrivate(k.end, f1, t, k.free, sz, newsz);
        var st;
        st, sz' := k.Uvmdealloc(root, sz, newsz, t);
        OnlyShrunk(f1, PgUp(sz'), PgUp(sz));
        PaintShrunk(k.end, mem1, k.mem, f1, op, t, k.free, perms, PgUp(sz), sz');
    }
    SameHeldTrans(free0, map[], map[], free1, t, f1, k.free, t', Flat(k.mem, root, t'));
  }

  /** An address in the pages uvmalloc has added: walkaddr finds the new frame, and it holds zeros. */
  method Touch(k: Machine, root: int, oldsz: nat, newsz: nat, xperm: nat, va: nat, ghost t: Tree)
    returns (r: nat, pa: int, ghost t': Tree)
    requires k.Ok() && Space(k.end, k.mem, k.free, root, t)
    requires Image(k.end, Flat(k.mem, root, t), t, k.free, PgUp(oldsz)) && xperm in {0, 4, 8, 12} && oldsz <= newsz
    requires PgUp(oldsz) * PGSIZE <= va < newsz
    modifies k
    ensures k.Ok() && Space(k.end, k.mem, k.free, root, t')
    ensures r == newsz ==>
      && pa in k.mem && ZeroPage(k.mem[pa]) && va / PGSIZE in Flat(k.mem, root, t')
      && Flat(k.mem, root, t')[va / PGSIZE] == pa / 4096 * 1024 + 1 + 2 + 16 + xperm
    ensures r != newsz ==> r == 0 && |old(k.free)| < 3 * (PgUp(newsz) - PgUp(oldsz))
  {
    hide Wf, FreeOk, IsFlat, SameHeld, Kept, Image, SameOn, SameData, Fresh;
    ghost var ok;
    r, t', ok := k.Uvmalloc(root, oldsz, newsz, xperm, t);
    pa := k.Walkaddr(root, va, t');
    if r == newsz { FreshAt(k.mem, Flat(k.mem, root, t'), oldsz, newsz, 19 + xperm, va); }
  }

  lemma FreshAt(mem: Mem, f: map<nat, int>, oldsz: nat, newsz: nat, flags: nat, va: nat)
    requires Fresh(mem, f, PgUp(oldsz), PgUp(newsz), flags) && flags / 16 % 2 == 1 && flags < 1024
    requires PgUp(oldsz) * PGSIZE <= va < newsz
    ensures var v := va / PGSIZE;
      && v in f && User(f[v]) && Pa(f[v]) in mem && ZeroPage(mem[Pa(f[v])]) && f[v] == Pa(f[v]) / 4096 * 1024 + flags
  {
    var v := va / PGSIZE;
    assert PgUp(oldsz) <= v < PgUp(newsz);
    WordDigits(f[v] / 1024, flags);
  }

  /** uvmcreate, the resizes one after the other, uvmfree. Each resize does what its success or failure means, at
      every moment the pages are accounted for by number, and at the end the free pages are the ones of the start.
      It stops early only when there is no page for the root. */
  method Life(k: Machine, ops: seq<Resize>) returns (root: int, sizes: seq<nat>, ghost stages: seq<Stage>)
    requires k.Ok()
    modifies k
    ensures root == 0 <==> old(k.free) == []
    ensures root != 0 ==> Lives(k.end, root, old(k.free), stages, ops, sizes)
    ensures k.Ok() && ToSet(k.free) == ToSet(old(k.free)) && |k.free| == |old(k.free)|
  {
    hide Wf, FreeOk, IsFlat, SameHeld, Kept, Image, Only, Lives, Living, Resized, ListDistinct, Painted, NextPerms;
    ghost var free0, t, perms: seq<nat> := k.free, map[], [];
    sizes, stages := [], [];
    ListFacts(k.end, k.mem, k.freelist, k.free);
    SameHeldRefl(free0, map[], map[]);
    root, t := k.Uvmcreate();
    if root == 0 { return; }
    EmptyImage(k.end, t, k.free);
    var sz, i := 0, 0;
    NonePainted(k.mem, Flat(k.mem, root, t));
    Alive(k.end, k.mem, k.freelist, k.free, root, t, 0, free0, perms);
    sizes, stages := [0], [Stage(k.mem, k.freelist, k.free, t, perms)];
    LivesFirst(k.end, root, free0, stages[0]);
    assert ops[..0] == [];
    while i < |ops|
      invariant 0 <= i <= |ops| && |sizes| == |stages| == i + 1 && sizes[i] == sz && |stages[i].free| == |k.free|
      invariant k.Ok() && Space(k.end, k.mem, k.free, root, t)
      invariant Image(k.end, Flat(k.mem, root, t), t, k.free, PgUp(sz)) && Only(Flat(k.mem, root, t), PgUp(sz))
      invariant SameHeld(free0, map[], map[], k.free, t, Flat(k.mem, root, t))
      invariant Lives(k.end, root, free0, stages, ops[..i], sizes) && stages[i].perms == perms
      invariant |perms| == PgUp(sz) && Painted(k.mem, Flat(k.mem, root, t), perms)
    {
      ghost var perms1 := perms;
      sz, t := Step(k, root, ops[i], sz, t, free0, perms);
      perms := NextPerms(ops[i], perms1, sz);
      PermsSize(ops[i], perms1, sz);
      Alive(k.end, k.mem, k.freelist, k.free, root, t, sz, free0, perms);
      ghost var s := Stage(k.mem, k.freelist, k.free, t, perms);
      LivesNext(k.end, root, free0, stages, ops[..i], sizes, s, ops[i], sz);
      assert ops[..i + 1] == ops[..i] + [ops[i]];
      sizes, stages := sizes + [sz], stages + [s];
      i := i + 1;
    }
    assert ops[..i] == ops;
    ghost var free1, f1 := k.free, Flat(k.mem, root, t);
    var st := k.Uvmfree(root, sz, t);
    SameHeldTrans(free0, map[], map[], free1, t, f1, k.free, map[], map[]);
    SameFree(free0, k.free);
    ListFacts(k.end, k.mem, k.freelist, k.free);
    SameCount(free0, k.free);
  }
}
