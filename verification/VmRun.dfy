/** Whole sequences of mappages and uvmunmap calls on one page table (kernel/vm.c), and what walkaddr then sees. */
module VmRun {
  import opened Option
  import opened Params
  import opened PageTree
  import opened Vm

  datatype VmCall = MapCall(va: nat, size: nat, pa: int, perm: nat) | UnmapCall(va: nat, npages: nat, dofree: bool)

  ghost predicate Frees(c: VmCall) { c.UnmapCall? && c.dofree }

  /** The flat map after a call that got through `m` pages. */
  ghost function After(g: map<nat, int>, c: VmCall, m: nat): map<nat, int> {
    match c
    case MapCall(va, _, pa, perm) => MapRange(g, va / PGSIZE, pa, WithV(perm), m)
    case UnmapCall(va, _, _) => UnmapRange(g, va / PGSIZE, m)
  }

  /** The frames such a call put on the free list. */
  ghost function Freed(g: map<nat, int>, c: VmCall, m: nat): set<int> {
    if Frees(c) then set v | v in g && c.va / PGSIZE <= v < c.va / PGSIZE + m :: Pa(g[v]) else {}
  }

  /** How a call can end, and after how many pages. */
  ghost predicate Outcome(end: int, g: map<nat, int>, c: VmCall, st: Status, m: nat) {
    var v0 := c.va / PGSIZE;
    match c
    case MapCall(va, size, _, _) =>
      var last := (va + size - 1) / PGSIZE;
      && Unmapped(g, v0, m) && (m > 0 ==> v0 + m <= last + 1)
      && (st.Done? <==> m > 0 && v0 + m == last + 1)
      && (st.Panic? <==> size == 0 || (v0 + m <= last && (v0 + m >= NVPN || v0 + m in g)))
    case UnmapCall(va, npages, dofree) =>
      && NoneStuck(end, g, v0, m, dofree) && m <= npages && !st.NoMemory? && (va % PGSIZE != 0 ==> m == 0)
      && (st.Done? <==> va % PGSIZE == 0 && m == npages)
      && (st.Panic? <==> va % PGSIZE != 0 || (m < npages && Stuck(end, g, v0 + m, dofree)))
  }

  lemma UnmappedAt(end: int, g: map<nat, int>, v0: nat, m: nat, dofree: bool, i: nat)
    ensures Unmapped(g, v0, m) && i < m ==> v0 + i !in g && v0 + i < NVPN
    ensures NoneStuck(end, g, v0, m, dofree) && i < m ==> !Stuck(end, g, v0 + i, dofree)
  {
  }

  lemma OutcomeOrder(end: int, g: map<nat, int>, c: VmCall, st: Status, m: nat, st': Status, m': nat)
    requires Outcome(end, g, c, st, m) && Outcome(end, g, c, st', m') && !st'.NoMemory?
    ensures m <= m'
  {
    UnmappedAt(end, g, c.va / PGSIZE, m, c.UnmapCall? && c.dofree, m');
  }

  /** Only running out of pages is not decided by the flat map: otherwise status and page count are, and a call that ran
      out stopped no later. */
  lemma OutcomeDecided(end: int, g: map<nat, int>, c: VmCall, st: Status, m: nat, st': Status, m': nat)
    requires Outcome(end, g, c, st, m) && Outcome(end, g, c, st', m') && !st'.NoMemory?
    ensures m <= m' && (!st.NoMemory? ==> st == st' && m == m')
  {
    OutcomeOrder(end, g, c, st, m, st', m');
    if !st.NoMemory? { OutcomeOrder(end, g, c, st', m', st, m); }
  }

  /** The frames mapped in a range are outside `busy` and differ. */
  ghost predicate Apart(g: map<nat, int>, v0: nat, n: nat, busy: set<int>) {
    && (forall v | v in g && v0 <= v < v0 + n :: Pa(g[v]) !in busy)
    && (forall v, u | v in g && u in g && v0 <= v < u < v0 + n :: Pa(g[v]) != Pa(g[u]))
  }

  /** However the calls end, each one that frees finds frames that are neither tables nor free, each mapped once. */
  ghost predicate Careful(end: int, g: map<nat, int>, busy: set<int>, calls: seq<VmCall>)
    decreases |calls|
  {
    calls == [] || (
      && (Frees(calls[0]) ==> Apart(g, calls[0].va / PGSIZE, calls[0].npages, busy))
      && forall st: Status, m: nat | Outcome(end, g, calls[0], st, m) && st != Panic ::
           Careful(end, After(g, calls[0], m), busy + Freed(g, calls[0], m), calls[1..]))
  }

  lemma CarefulNow(end: int, g: map<nat, int>, busy: set<int>, calls: seq<VmCall>, t: Tree, free: seq<int>)
    requires Careful(end, g, busy, calls) && calls != [] && busy == t.Keys + ToSet(free)
    ensures Frees(calls[0]) ==> Private(g, calls[0].va / PGSIZE, calls[0].npages, t, free)
  {
    if Frees(calls[0]) {
      forall v | v in g && calls[0].va / PGSIZE <= v < calls[0].va / PGSIZE + calls[0].npages
        ensures Pa(g[v]) !in t && Pa(g[v]) !in free
      {
        assert Pa(g[v]) !in busy;
      }
    }
  }

  lemma CarefulNext(end: int, g: map<nat, int>, busy: set<int>, calls: seq<VmCall>, i: nat, st: Status, m: nat)
    requires i < |calls| && Careful(end, g, busy, calls[i..]) && Outcome(end, g, calls[i], st, m) && st != Panic
    ensures Careful(end, After(g, calls[i], m), busy + Freed(g, calls[i], m), calls[i + 1..])
  {
    assert calls[i..][0] == calls[i] && calls[i..][1..] == calls[i + 1..];
  }

  /** Where page `v` can get a frame from: its entry now (-1), or one of the mappages calls. */
  ghost predicate Source(g: map<nat, int>, calls: seq<VmCall>, k: int, v: nat) {
    if k == -1 then v in g
    else
      0 <= k < |calls| && calls[k].MapCall? && calls[k].va / PGSIZE <= v <= (calls[k].va + calls[k].size - 1) / PGSIZE
  }

  ghost function Frame(g: map<nat, int>, calls: seq<VmCall>, k: int, v: nat): int
    requires Source(g, calls, k, v)
  {
    if k == -1 then Pa(g[v])
    else Pa(Pte(calls[k].pa + (v - calls[k].va / PGSIZE) * PGSIZE, WithV(calls[k].perm)))
  }

  /** No frame is handed to two pages, nor to one page twice, and none is a table or free. */
  ghost predicate Owned(g: map<nat, int>, busy: set<int>, calls: seq<VmCall>) {
    && (forall k, v | Source(g, calls, k, v) :: Frame(g, calls, k, v) !in busy)
    && (forall k, v, j, u | Source(g, calls, k, v) && Source(g, calls, j, u) && (k, v) != (j, u) ::
          Frame(g, calls, k, v) != Frame(g, calls, j, u))
  }

  /** Where a frame of the state after the first call came from. */
  lemma SourceBefore(end: int, g: map<nat, int>, calls: seq<VmCall>, st: Status, m: nat, k: int,
                     v: nat) returns (j: int)
    requires calls != [] && Outcome(end, g, calls[0], st, m) && Source(After(g, calls[0], m), calls[1..], k, v)
    ensures Source(g, calls, j, v) && Frame(g, calls, j, v) == Frame(After(g, calls[0], m), calls[1..], k, v)
    ensures k != -1 ==> j == k + 1
    ensures k == -1 ==> j == -1 || j == 0
    ensures k == -1 && calls[0].UnmapCall? ==> j == -1 && !(calls[0].va / PGSIZE <= v < calls[0].va / PGSIZE + m)
  {
    var c, v0 := calls[0], calls[0].va / PGSIZE;
    if k != -1 {
      j := k + 1;
    } else if c.MapCall? {
      MapRangeAt(g, v0, c.pa, WithV(c.perm), m, v);
      j := if v0 <= v < v0 + m then 0 else -1;
    } else {
      j := -1;
    }
  }

  lemma OwnedNext(end: int, g: map<nat, int>, busy: set<int>, calls: seq<VmCall>, st: Status, m: nat)
    requires Owned(g, busy, calls) && calls != [] && Outcome(end, g, calls[0], st, m)
    ensures Owned(After(g, calls[0], m), busy + Freed(g, calls[0], m), calls[1..])
  {
    var g', busy', rest := After(g, calls[0], m), busy + Freed(g, calls[0], m), calls[1..];
    forall k: int, v: nat | Source(g', rest, k, v) ensures Frame(g', rest, k, v) !in busy' {
      var j := SourceBefore(end, g, calls, st, m, k, v);
      forall u | u in g && calls[0].va / PGSIZE <= u < calls[0].va / PGSIZE + m && Frees(calls[0])
        ensures Pa(g[u]) != Frame(g', rest, k, v)
      {
        assert Source(g, calls, -1, u) && (j, v) != (-1, u);
      }
    }
    forall k: int, v: nat, j: int, u: nat | Source(g', rest, k, v) && Source(g', rest, j, u) && (k, v) != (j, u)
      ensures Frame(g', rest, k, v) != Frame(g', rest, j, u)
    {
      var k' := SourceBefore(end, g, calls, st, m, k, v);
      var j' := SourceBefore(end, g, calls, st, m, j, u);
    }
  }

  /** A discipline the caller can see in the calls themselves is enough, whatever they run into. */
  lemma {:induction false} OwnedCareful(end: int, g: map<nat, int>, busy: set<int>, calls: seq<VmCall>)
    requires Owned(g, busy, calls)
    ensures Careful(end, g, busy, calls)
    decreases |calls|
  {
    if calls != [] {
      forall v | v in g ensures Pa(g[v]) !in busy { assert Source(g, calls, -1, v); }
      forall v, u | v in g && u in g && v < u ensures Pa(g[v]) != Pa(g[u]) {
        assert Source(g, calls, -1, v) && Source(g, calls, -1, u);
      }
      forall st: Status, m: nat | Outcome(end, g, calls[0], st, m) && st != Panic
        ensures Careful(end, After(g, calls[0], m), busy + Freed(g, calls[0], m), calls[1..])
      {
        OwnedNext(end, g, busy, calls, st, m);
        OwnedCareful(end, After(g, calls[0], m), busy + Freed(g, calls[0], m), calls[1..]);
      }
    }
  }

  /** What the calls do to the flat map; `ms` counts the pages each one got through. */
  ghost function Replay(f: map<nat, int>, calls: seq<VmCall>, ms: seq<nat>): map<nat, int>
    requires |ms| == |calls|
  {
    if calls == [] then f
    else var n := |calls| - 1; After(Replay(f, calls[..n], ms[..n]), calls[n], ms[n])
  }

  /** Tables and free pages after the calls. */
  ghost function Busy(f: map<nat, int>, busy: set<int>, calls: seq<VmCall>, ms: seq<nat>): set<int>
    requires |ms| == |calls|
  {
    if calls == [] then busy
    else
      var n := |calls| - 1;
      Busy(f, busy, calls[..n], ms[..n]) + Freed(Replay(f, calls[..n], ms[..n]), calls[n], ms[n])
  }

  /** An upper bound on the pages the calls took for tables. */
  ghost function Spent(calls: seq<VmCall>, sts: seq<Status>, ms: seq<nat>): nat
    requires |ms| == |sts| == |calls|
  {
    if calls == [] then 0
    else
      var n := |calls| - 1;
      Spent(calls[..n], sts[..n], ms[..n])
      + if calls[n].UnmapCall? then 0 else if sts[n].Done? then 2 * ms[n] else 2 * ms[n] + 2
  }

  ghost function EntryAt(f: map<nat, int>, v: nat): Option<int> { if v in f then Some(f[v]) else None }

  ghost predicate Reached(c: VmCall, m: nat, v: nat) { c.va / PGSIZE <= v < c.va / PGSIZE + m }

  /** The entry of page `v` after the calls, read off from the last one that reached it. */
  ghost function LastSet(f: map<nat, int>, calls: seq<VmCall>, ms: seq<nat>, v: nat): Option<int>
    requires |ms| == |calls|
  {
    if calls == [] then EntryAt(f, v)
    else
      var n := |calls| - 1;
      if !Reached(calls[n], ms[n], v) then LastSet(f, calls[..n], ms[..n], v)
      else match calls[n]
        case MapCall(va, _, pa, perm) => Some(Pte(pa + (v - va / PGSIZE) * PGSIZE, WithV(perm)))
        case UnmapCall(_, _, _) => None
  }

  lemma {:induction false} ReplayAt(f: map<nat, int>, calls: seq<VmCall>, ms: seq<nat>, v: nat)
    requires |ms| == |calls|
    ensures EntryAt(Replay(f, calls, ms), v) == LastSet(f, calls, ms, v)
  {
    if calls != [] {
      var n := |calls| - 1;
      var g := Replay(f, calls[..n], ms[..n]);
      ReplayAt(f, calls[..n], ms[..n], v);
      var c := calls[n];
      if c.MapCall? && (v in g || c.va / PGSIZE <= v < c.va / PGSIZE + ms[n]) {
        MapRangeAt(g, c.va / PGSIZE, c.pa, WithV(c.perm), ms[n], v);
      }
    }
  }

  /** A page stays as the last call that reached it left it, however many follow elsewhere. */
  lemma {:induction false} LastMapped(f: map<nat, int>, calls: seq<VmCall>, ms: seq<nat>, k: nat, v: nat)
    requires |ms| == |calls| && k < |calls| && Reached(calls[k], ms[k], v)
    requires forall j | k < j < |calls| :: !Reached(calls[j], ms[j], v)
    ensures LastSet(f, calls, ms, v) == LastSet(f, calls[..k + 1], ms[..k + 1], v)
    decreases |calls|
  {
    var n := |calls| - 1;
    if k < n {
      LastMapped(f, calls[..n], ms[..n], k, v);
      assert calls[..n][..k + 1] == calls[..k + 1] && ms[..n][..k + 1] == ms[..k + 1];
    } else {
      assert calls[..k + 1] == calls && ms[..k + 1] == ms;
    }
  }

  /** Each call ended as it had to, from what the calls before it left. */
  ghost predicate Ran(end: int, f: map<nat, int>, calls: seq<VmCall>, sts: seq<Status>, ms: seq<nat>)
    requires |ms| == |sts| <= |calls|
  {
    forall k | 0 <= k < |sts| :: Outcome(end, Replay(f, calls[..k], ms[..k]), calls[k], sts[k], ms[k])
  }

  /** A call ran out of pages only when the list was no longer than what the calls up to it can take. */
  ghost predicate Frugal(free: seq<int>, calls: seq<VmCall>, sts: seq<Status>, ms: seq<nat>)
    requires |ms| == |sts| <= |calls|
  {
    forall k | 0 <= k < |sts| && sts[k].NoMemory? :: |free| <= Spent(calls[..k], sts[..k], ms[..k]) + 2 * ms[k] + 1
  }

  lemma RanNone(end: int, f: map<nat, int>, busy: set<int>, free: seq<int>, calls: seq<VmCall>)
    ensures Ran(end, f, calls, [], []) && Frugal(free, calls, [], [])
    ensures Replay(f, [], []) == f && Busy(f, busy, [], []) == busy && Spent([], [], []) == 0
  {
  }

  lemma RanNext(end: int, f: map<nat, int>, calls: seq<VmCall>, sts: seq<Status>, ms: seq<nat>, st: Status, m: nat)
    requires |ms| == |sts| < |calls| && Ran(end, f, calls, sts, ms)
    requires Outcome(end, Replay(f, calls[..|sts|], ms), calls[|sts|], st, m)
    ensures Ran(end, f, calls, sts + [st], ms + [m])
  {
    hide Outcome, Replay;
    forall k | 0 <= k <= |sts|
      ensures Outcome(end, Replay(f, calls[..k], (ms + [m])[..k]), calls[k], (sts + [st])[k], (ms + [m])[k])
    {
      assert (ms + [m])[..k] == ms[..k];
      if k == |sts| { assert ms[..k] == ms; }
    }
  }

  lemma FrugalNext(free: seq<int>, calls: seq<VmCall>, sts: seq<Status>, ms: seq<nat>, st: Status, m: nat)
    requires |ms| == |sts| < |calls| && Frugal(free, calls, sts, ms)
    requires st.NoMemory? ==> |free| <= Spent(calls[..|sts|], sts, ms) + 2 * m + 1
    ensures Frugal(free, calls, sts + [st], ms + [m])
  {
    hide Spent;
    forall k | 0 <= k <= |sts| && (sts + [st])[k].NoMemory?
      ensures |free| <= Spent(calls[..k], (sts + [st])[..k], (ms + [m])[..k]) + 2 * (ms + [m])[k] + 1
    {
      assert (ms + [m])[..k] == ms[..k] && (sts + [st])[..k] == sts[..k];
      if k == |sts| { assert ms[..k] == ms && sts[..k] == sts; }
    }
  }

  lemma ReplayNext(f: map<nat, int>, busy: set<int>, calls: seq<VmCall>, sts: seq<Status>, ms: seq<nat>, st: Status,
                   m: nat)
    requires |ms| == |sts| < |calls|
    ensures var i, g := |sts|, Replay(f, calls[..|sts|], ms);
      && Replay(f, calls[..i + 1], ms + [m]) == After(g, calls[i], m)
      && Busy(f, busy, calls[..i + 1], ms + [m]) == Busy(f, busy, calls[..i], ms) + Freed(g, calls[i], m)
      && Spent(calls[..i + 1], sts + [st], ms + [m]) == Spent(calls[..i], sts, ms)
           + if calls[i].UnmapCall? then 0 else if st.Done? then 2 * m else 2 * m + 2
  {
    var i := |sts|;
    assert calls[..i + 1][..i] == calls[..i] && (ms + [m])[..i] == ms && (sts + [st])[..i] == sts;
  }

  lemma FreedBusy(g: map<nat, int>, c: VmCall, m: nat, t: Tree, free: seq<int>, free': seq<int>)
    requires c.UnmapCall? && FreedFrom(g, c.va / PGSIZE, m, free, free') && ToSet(free) <= ToSet(free')
    requires if c.dofree then AllFreed(g, c.va / PGSIZE, m, free') else free' == free
    ensures t.Keys + ToSet(free') == t.Keys + ToSet(free) + Freed(g, c, m)
  {
    forall p ensures p in ToSet(free') <==> p in ToSet(free) || p in Freed(g, c, m) {
      if p in free' && p !in free {
        var v :| v in g && c.va / PGSIZE <= v < c.va / PGSIZE + m && Pa(g[v]) == p;
      }
    }
  }

  /** Runs one call. */
  method Step(k: Machine, root: int, c: VmCall, ghost t: Tree) returns (st: Status, ghost t': Tree, ghost m: nat)
    requires k.Ok() && Space(k.end, k.mem, k.free, root, t) && (c.MapCall? ==> c.perm < 1024)
    requires Frees(c) ==> Private(Flat(k.mem, root, t), c.va / PGSIZE, c.npages, t, k.free)
    modifies k
    ensures k.Ok() && Space(k.end, k.mem, k.free, root, t')
    ensures Outcome(k.end, Flat(old(k.mem), root, t), c, st, m)
    ensures Flat(k.mem, root, t') == After(Flat(old(k.mem), root, t), c, m)
    ensures t'.Keys + ToSet(k.free) == t.Keys + ToSet(old(k.free)) + Freed(Flat(old(k.mem), root, t), c, m)
    ensures |k.free| >= |old(k.free)| - if c.UnmapCall? then 0 else if st.Done? then 2 * m else 2 * m + 2
    ensures st.NoMemory? ==> |old(k.free)| <= 2 * m + 1
  {
    hide Wf, FreeOk, IsFlat, MapRange, UnmapRange, Unmapped, Stuck, NoneStuck, Private, SameHeld, Kept, FreedFrom,
         AllFreed;
    t' := t;
    match c {
      case MapCall(va, size, pa, perm) => st, t', m := k.Mappages(root, va, size, pa, perm, t);
      case UnmapCall(va, npages, dofree) =>
        if dofree { PrivateGuarded(k.end, Flat(k.mem, root, t), va / PGSIZE, npages, t, k.free); }
        st, m := k.Uvmunmap(root, va, npages, dofree, t);
        FreedBusy(Flat(old(k.mem), root, t), c, m, t, old(k.free), k.free);
    }
  }

  /** Any sequence of mappages and uvmunmap calls, with and without freeing, up to the first panic. Each call ends
      as the table before it decides, afterwards every page translates as the last call that reached it left it,
      and the tables and the free list hold what they held plus the freed frames. */
  method Perform(k: Machine, root: int, calls: seq<VmCall>, ghost t: Tree)
    returns (sts: seq<Status>, ghost t': Tree, ghost ms: seq<nat>)
    requires k.Ok() && Space(k.end, k.mem, k.free, root, t) && forall c | c in calls && c.MapCall? :: c.perm < 1024
    requires Careful(k.end, Flat(k.mem, root, t), t.Keys + ToSet(k.free), calls)
    modifies k
    ensures k.Ok() && Space(k.end, k.mem, k.free, root, t') && |ms| == |sts| <= |calls|
    ensures |sts| < |calls| ==> sts != [] && sts[|sts| - 1].Panic?
    ensures forall j | 0 <= j < |sts| - 1 :: !sts[j].Panic?
    ensures Ran(k.end, Flat(old(k.mem), root, t), calls, sts, ms) && Frugal(old(k.free), calls, sts, ms)
    ensures forall v: nat ::
      EntryAt(Flat(k.mem, root, t'), v) == LastSet(Flat(old(k.mem), root, t), calls[..|sts|], ms, v)
    ensures t'.Keys + ToSet(k.free) == Busy(Flat(old(k.mem), root, t), t.Keys + ToSet(old(k.free)), calls[..|sts|], ms)
  {
    hide Wf, FreeOk, IsFlat, After, Freed, Outcome, Careful, Private, Replay, Busy, Spent, LastSet, EntryAt, Ran,
         Frugal;
    ghost var f, busy := Flat(k.mem, root, t), t.Keys + ToSet(k.free);
    t', ms, sts := t, [], [];
    RanNone(k.end, f, busy, k.free, calls);
    var n := 0;
    assert calls[0..] == calls;
    while n < |calls|
      invariant n == |sts| == |ms| && n <= |calls| && k.Ok() && Space(k.end, k.mem, k.free, root, t')
      invariant forall j | 0 <= j < n :: !sts[j].Panic?
      invariant Ran(k.end, f, calls, sts, ms) && Frugal(old(k.free), calls, sts, ms)
      invariant Flat(k.mem, root, t') == Replay(f, calls[..n], ms)
      invariant t'.Keys + ToSet(k.free) == Busy(f, busy, calls[..n], ms)
      invariant |k.free| >= |old(k.free)| - Spent(calls[..n], sts, ms)
      invariant Careful(k.end, Flat(k.mem, root, t'), t'.Keys + ToSet(k.free), calls[n..])
    {
      ghost var g, b := Flat(k.mem, root, t'), t'.Keys + ToSet(k.free);
      CarefulNow(k.end, g, b, calls[n..], t', k.free);
      var st;
      ghost var m;
      st, t', m := Step(k, root, calls[n], t');
      RanNext(k.end, f, calls, sts, ms, st, m);
      FrugalNext(old(k.free), calls, sts, ms, st, m);
      ReplayNext(f, busy, calls, sts, ms, st, m);
      n, sts, ms := n + 1, sts + [st], ms + [m];
      if st == Panic { break; }
      CarefulNext(k.end, g, b, calls, n - 1, st, m);
    }
    forall v: nat ensures EntryAt(Flat(k.mem, root, t'), v) == LastSet(f, calls[..n], ms, v) {
      ReplayAt(f, calls[..n], ms, v);
    }
  }

  /** walkaddr's reading of an entry. */
  ghost function Seen(e: Option<int>): int { if e.Some? && User(e.value) then Pa(e.value) else 0 }

  lemma SeenPage(x: int, perm: nat)
    requires perm < 1024
    ensures Seen(Some(Pte(x, WithV(perm)))) == if perm / 16 % 2 == 1 then x / PGSIZE * PGSIZE else 0
  {
    WordDigits(x / PGSIZE, WithV(perm));
  }

  /** The calls, then walkaddr of any address: it finds what the last call that reached the page put there, and the
      page of a user mapping that no later call reached. */
  method Translate(k: Machine, root: int, calls: seq<VmCall>, va: nat, ghost t: Tree)
    returns (pa: int, sts: seq<Status>, ghost ms: seq<nat>)
    requires k.Ok() && Space(k.end, k.mem, k.free, root, t) && forall c | c in calls && c.MapCall? :: c.perm < 1024
    requires Careful(k.end, Flat(k.mem, root, t), t.Keys + ToSet(k.free), calls)
    modifies k
    ensures |ms| == |sts| <= |calls| && Ran(k.end, Flat(old(k.mem), root, t), calls, sts, ms)
    ensures pa == Seen(LastSet(Flat(old(k.mem), root, t), calls[..|sts|], ms, va / PGSIZE))
    ensures forall j | 0 <= j < |sts| && Reached(calls[j], ms[j], va / PGSIZE)
        && (forall i | j < i < |sts| :: !Reached(calls[i], ms[i], va / PGSIZE)) ::
      pa == if calls[j].UnmapCall? || calls[j].perm / 16 % 2 == 0 then 0
            else (calls[j].pa + (va / PGSIZE - calls[j].va / PGSIZE) * PGSIZE) / PGSIZE * PGSIZE
  {
    hide Wf, FreeOk, IsFlat, After, Freed, Outcome, Careful, Replay, Busy, Ran, Frugal;
    ghost var f, v, t' := Flat(k.mem, root, t), va / PGSIZE, t;
    sts, t', ms := Perform(k, root, calls, t);
    assert EntryAt(Flat(k.mem, root, t'), v) == LastSet(f, calls[..|sts|], ms, v);
    pa := k.Walkaddr(root, va, t');
    forall j | 0 <= j < |sts| && Reached(calls[j], ms[j], v)
               && (forall i | j < i < |sts| :: !Reached(calls[i], ms[i], v))
      ensures pa == if calls[j].UnmapCall? || calls[j].perm / 16 % 2 == 0 then 0
                    else (calls[j].pa + (v - calls[j].va / PGSIZE) * PGSIZE) / PGSIZE * PGSIZE
    {
      LastMapped(f, calls[..|sts|], ms, j, v);
      assert calls[..|sts|][..j + 1] == calls[..j + 1];
      if calls[j].MapCall? { SeenPage(calls[j].pa + (v - calls[j].va / PGSIZE) * PGSIZE, calls[j].perm); }
    }
  }
}
