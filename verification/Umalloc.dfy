/** The Kernighan and Ritchie allocator.  Addresses count header-sized units; a block is a
    header followed by its payload, and the free blocks form a ring through their headers. */
module Umalloc {
  import opened Option

  const HEADER: nat := 16      // sizeof(Header)
  const MINCORE: nat := 4096   // units morecore asks for at least

  datatype Header = Header(ptr: int, size: nat)
  type Mem = map<int, Header>

  /** A free block: its address and length. */
  datatype Blk = Blk(a: int, n: nat)

  // ---- free lists: base first, then ascending, never touching ----

  ghost predicate Sorted(fl: seq<Blk>) {
    && |fl| > 0 && fl[0].n == 0 && (forall i | 1 <= i < |fl| :: fl[i].n > 0)
    && forall i, j | 0 <= i < j < |fl| :: fl[i].a + fl[i].n < fl[j].a
  }

  function Next(fl: seq<Blk>, i: nat): int
    requires |fl| > 0
  {
    if i + 1 < |fl| then fl[i + 1].a else fl[0].a
  }

  ghost predicate LinkAt(mem: Mem, fl: seq<Blk>, i: nat)
    requires i < |fl|
  {
    fl[i].a in mem && mem[fl[i].a] == Header(Next(fl, i), fl[i].n)
  }

  /** The headers in memory thread exactly this list, last block back to base. */
  ghost predicate Ring(mem: Mem, fl: seq<Blk>) {
    Sorted(fl) && forall i {:trigger LinkAt(mem, fl, i)} | 0 <= i < |fl| :: LinkAt(mem, fl, i)
  }

  ghost predicate InFree(fl: seq<Blk>, u: int) {
    exists i :: 0 <= i < |fl| && fl[i].a <= u < fl[i].a + fl[i].n
  }

  /** The block at `a` of `n` units overlaps no free block and lies above base. */
  ghost predicate Apart(fl: seq<Blk>, a: int, n: nat) {
    && n > 0 && |fl| > 0 && fl[0].a < a
    && forall i | 0 <= i < |fl| :: (fl[i].a < a && fl[i].a + fl[i].n <= a) || a + n <= fl[i].a
  }

  /** `t` is the last free block before `a`. */
  ghost predicate Before(fl: seq<Blk>, t: nat, a: int) {
    t < |fl| && fl[t].a < a && (t + 1 < |fl| ==> a < fl[t + 1].a)
  }

  predicate Up(fl: seq<Blk>, t: nat, a: int, n: nat) { t + 1 < |fl| && a + n == fl[t + 1].a }

  /** The list with the blocks from `s` up to `k` replaced by one. */
  function Splice(fl: seq<Blk>, s: nat, b: Blk, k: nat): (r: seq<Blk>)
    requires s <= k <= |fl|
    ensures |r| == s + 1 + |fl| - k && r[s] == b
    ensures forall i | 0 <= i < s :: r[i] == fl[i]
    ensures forall i | s < i < |r| :: r[i] == fl[i - s - 1 + k]
  {
    fl[..s] + [b] + fl[k..]
  }

  lemma SpliceSorted(fl: seq<Blk>, s: nat, b: Blk, k: nat)
    requires Sorted(fl) && 1 <= s <= k <= |fl| && b.n > 0
    requires fl[s - 1].a + fl[s - 1].n < b.a && (k < |fl| ==> b.a + b.n < fl[k].a)
    ensures Sorted(Splice(fl, s, b, k))
  {
    hide Splice;
    var r := Splice(fl, s, b, k);
    forall i, j | 0 <= i < j < |r| ensures r[i].a + r[i].n < r[j].a {
      if i < s - 1 && j == s { assert fl[i].a + fl[i].n < fl[s - 1].a; }
      if i == s && j > s + 1 { assert fl[k].a + fl[k].n < fl[j - s - 1 + k].a; }
    }
  }

  /** Where a freed block goes: after `t`, joined to either neighbour it touches. */
  function From(fl: seq<Blk>, t: nat, a: int): nat
    requires t < |fl|
  {
    if fl[t].a + fl[t].n == a then t else t + 1
  }

  function Upto(fl: seq<Blk>, t: nat, a: int, n: nat): nat { if Up(fl, t, a, n) then t + 2 else t + 1 }

  function Joined(fl: seq<Blk>, t: nat, a: int, n: nat): Blk
    requires t < |fl|
  {
    var m := if Up(fl, t, a, n) then n + fl[t + 1].n else n;
    if fl[t].a + fl[t].n == a then Blk(fl[t].a, fl[t].n + m) else Blk(a, m)
  }

  function Ins(fl: seq<Blk>, t: nat, a: int, n: nat): seq<Blk>
    requires t < |fl|
  {
    Splice(fl, From(fl, t, a), Joined(fl, t, a, n), Upto(fl, t, a, n))
  }

  lemma InsSorted(fl: seq<Blk>, t: nat, a: int, n: nat)
    requires Sorted(fl) && Apart(fl, a, n) && Before(fl, t, a)
    ensures Sorted(Ins(fl, t, a, n))
  {
    var s, b, k := From(fl, t, a), Joined(fl, t, a, n), Upto(fl, t, a, n);
    assert fl[t].a + fl[t].n <= a;
    assert s >= 1 && fl[s - 1].a + fl[s - 1].n < b.a;
    if k < |fl| {
      if k == t + 2 { assert fl[t + 1].a + fl[t + 1].n < fl[k].a; }
      assert b.a + b.n < fl[k].a;
    }
    SpliceSorted(fl, s, b, k);
  }

  lemma SpliceUnits(fl: seq<Blk>, s: nat, b: Blk, k: nat, u: int)
    requires s <= k <= |fl|
    ensures InFree(Splice(fl, s, b, k), u) <==> InFree(fl[..s], u) || b.a <= u < b.a + b.n || InFree(fl[k..], u)
  {
    var r := Splice(fl, s, b, k);
    if InFree(fl[..s], u) {
      var i :| 0 <= i < s && fl[..s][i].a <= u < fl[..s][i].a + fl[..s][i].n;
      assert r[i] == fl[i];
    }
    if InFree(fl[k..], u) {
      var i :| 0 <= i < |fl| - k && fl[k..][i].a <= u < fl[k..][i].a + fl[k..][i].n;
      assert r[i + s + 1] == fl[k + i];
    }
    if i :| 0 <= i < |r| && r[i].a <= u < r[i].a + r[i].n {
      if i < s { assert fl[..s][i] == r[i]; } else if i > s { assert fl[k..][i - s - 1] == r[i]; }
    }
  }

  lemma CutUnits(fl: seq<Blk>, s: nat, k: nat, u: int)
    requires s <= k <= |fl|
    ensures InFree(fl, u) <==> InFree(fl[..s], u) || InFree(fl[s..k], u) || InFree(fl[k..], u)
  {
    if i :| 0 <= i < |fl| && fl[i].a <= u < fl[i].a + fl[i].n {
      if i < s {
        assert fl[..s][i] == fl[i];
      } else if i < k {
        assert fl[s..k][i - s] == fl[i];
      } else {
        assert fl[k..][i - k] == fl[i];
      }
    }
  }

  lemma FewUnits(m: seq<Blk>, u: int)
    requires |m| <= 2
    ensures InFree(m, u) <==> (|m| > 0 && m[0].a <= u < m[0].a + m[0].n) || (|m| > 1 && m[1].a <= u < m[1].a + m[1].n)
  {
  }

  /** Freeing adds exactly the block's units. */
  lemma InsUnits(fl: seq<Blk>, t: nat, a: int, n: nat, u: int)
    requires Sorted(fl) && Apart(fl, a, n) && Before(fl, t, a)
    ensures InFree(Ins(fl, t, a, n), u) <==> InFree(fl, u) || a <= u < a + n
  {
    assert fl[t].a + fl[t].n <= a;
    hide Sorted, Apart, Before, InFree, Splice;
    var s, b, k := From(fl, t, a), Joined(fl, t, a, n), Upto(fl, t, a, n);
    SpliceUnits(fl, s, b, k, u);
    CutUnits(fl, s, k, u);
    FewUnits(fl[s..k], u);
  }

  /** What the stores at the end of free leave in memory. */
  function FreeStores(mem: Mem, p: int, bp: int): Mem
    requires p in mem && bp in mem && mem[p].ptr in mem
  {
    var q, sb := mem[p].ptr, mem[bp].size;
    var mem1 := if bp + sb == q then mem[bp := Header(mem[q].ptr, sb + mem[q].size)] else mem[bp := Header(q, sb)];
    if p + mem1[p].size == bp then mem1[p := Header(mem1[bp].ptr, mem1[p].size + mem1[bp].size)]
    else mem1[p := mem1[p].(ptr := bp)]
  }

  /** The block after the joined one. */
  function After(fl: seq<Blk>, t: nat, a: int, n: nat): int
    requires |fl| > 0
  {
    if Up(fl, t, a, n) then Next(fl, t + 1) else Next(fl, t)
  }

  lemma StoresAt(mem: Mem, fl: seq<Blk>, t: nat, a: int, n: nat)
    requires Ring(mem, fl) && Apart(fl, a, n) && Before(fl, t, a) && a in mem && mem[a].size == n
    ensures fl[t].a in mem && mem[fl[t].a].ptr in mem
    ensures var mem', b := FreeStores(mem, fl[t].a, a), Joined(fl, t, a, n);
      && b.a in mem' && mem'[b.a] == Header(After(fl, t, a, n), b.n)
      && (b.a == a ==> mem'[fl[t].a] == Header(a, fl[t].n))
      && forall x | x in mem && x != a && x != fl[t].a :: x in mem' && mem'[x] == mem[x]
  {
    assert LinkAt(mem, fl, t) && LinkAt(mem, fl, if t + 1 < |fl| then t + 1 else 0);
    assert fl[t].a < a && fl[0].a < a;
    hide Ring, Apart, Before, Sorted;
  }

  lemma InsNext(fl: seq<Blk>, t: nat, a: int, n: nat, i: nat)
    requires Sorted(fl) && Apart(fl, a, n) && Before(fl, t, a) && i < |Ins(fl, t, a, n)|
    ensures var s, k, r := From(fl, t, a), Upto(fl, t, a, n), Ins(fl, t, a, n);
      && s >= 1
      && (i == s ==> Next(r, i) == After(fl, t, a, n) && r[i] == Joined(fl, t, a, n))
      && (i < s ==> r[i] == fl[i] && Next(r, i) == if i == t then a else Next(fl, i))
      && (i > s ==> r[i] == fl[i - s - 1 + k] && Next(r, i) == Next(fl, i - s - 1 + k))
  {
    assert fl[0].a < a && fl[t].a < a && (t == 0 ==> fl[t].a + fl[t].n != a);
    hide Sorted, Apart, Before;
    hide Splice;
  }

  lemma InsLink(mem: Mem, fl: seq<Blk>, t: nat, a: int, n: nat, i: nat)
    requires Ring(mem, fl) && Apart(fl, a, n) && Before(fl, t, a) && a in mem && mem[a].size == n
    requires fl[t].a in mem && mem[fl[t].a].ptr in mem && i < |Ins(fl, t, a, n)|
    ensures LinkAt(FreeStores(mem, fl[t].a, a), Ins(fl, t, a, n), i)
  {
    var s, k := From(fl, t, a), Upto(fl, t, a, n);
    StoresAt(mem, fl, t, a, n);
    InsNext(fl, t, a, n, i);
    if i != s {
      var j := if i < s then i else i - s - 1 + k;
      assert LinkAt(mem, fl, j) && fl[j].a != a && (j != t ==> fl[j].a != fl[t].a);
    }
    hide Ring, Apart, Before, Sorted, Splice, Ins, FreeStores, Next, After;
  }

  lemma InsRing(mem: Mem, fl: seq<Blk>, t: nat, a: int, n: nat)
    requires Ring(mem, fl) && Apart(fl, a, n) && Before(fl, t, a) && a in mem && mem[a].size == n
    ensures fl[t].a in mem && mem[fl[t].a].ptr in mem && Ring(FreeStores(mem, fl[t].a, a), Ins(fl, t, a, n))
  {
    assert LinkAt(mem, fl, t) && LinkAt(mem, fl, if t + 1 < |fl| then t + 1 else 0);
    InsSorted(fl, t, a, n);
    forall i | 0 <= i < |Ins(fl, t, a, n)| ensures LinkAt(FreeStores(mem, fl[t].a, a), Ins(fl, t, a, n), i) {
      InsLink(mem, fl, t, a, n, i);
    }
  }

  // ---- taking a block out ----

  /** `need` units cut off the end of free block `j`, or the whole block. */
  function Cut(fl: seq<Blk>, j: nat, need: nat): seq<Blk>
    requires j < |fl| && need <= fl[j].n
  {
    if fl[j].n == need then fl[..j] + fl[j + 1..] else fl[j := Blk(fl[j].a, fl[j].n - need)]
  }

  function Taken(fl: seq<Blk>, j: nat, need: nat): int
    requires j < |fl| && need <= fl[j].n
  {
    fl[j].a + fl[j].n - need
  }

  /** malloc's stores once it has found a block that fits. */
  function TakeStores(mem: Mem, prevp: int, p: int, need: nat): Mem
    requires p in mem && prevp in mem && need <= mem[p].size
  {
    if mem[p].size == need then mem[prevp := mem[prevp].(ptr := mem[p].ptr)]
    else
      var rest := mem[p].size - need;
      var hd := if p + rest in mem then mem[p + rest].ptr else 0;
      mem[p := mem[p].(size := rest)][p + rest := Header(hd, need)]
  }

  lemma CutSorted(fl: seq<Blk>, j: nat, need: nat)
    requires Sorted(fl) && 1 <= j < |fl| && 0 < need <= fl[j].n
    ensures Sorted(Cut(fl, j, need))
  {
    var r := Cut(fl, j, need);
    if fl[j].n == need { assert forall i | 0 <= i < |r| :: r[i] == fl[if i < j then i else i + 1]; }
  }

  lemma Sides(fl: seq<Blk>, j: nat, u: int)
    requires Sorted(fl) && j < |fl|
    ensures InFree(fl[..j], u) ==> u < fl[j].a
    ensures InFree(fl[j + 1..], u) ==> fl[j].a + fl[j].n <= u
  {
  }

  lemma ConcatUnits(x: seq<Blk>, y: seq<Blk>, u: int)
    ensures InFree(x + y, u) <==> InFree(x, u) || InFree(y, u)
  {
    if i :| 0 <= i < |x| && x[i].a <= u < x[i].a + x[i].n { assert (x + y)[i] == x[i]; }
    if i :| 0 <= i < |y| && y[i].a <= u < y[i].a + y[i].n { assert (x + y)[|x| + i] == y[i]; }
  }

  /** The units of a list are those left after a cut and those cut off. */
  lemma CutFreed(fl: seq<Blk>, j: nat, need: nat, u: int)
    requires Sorted(fl) && 1 <= j < |fl| && 0 < need <= fl[j].n
    ensures var p := Taken(fl, j, need);
      && (InFree(fl, u) <==> InFree(Cut(fl, j, need), u) || p <= u < p + need)
      && !(InFree(Cut(fl, j, need), u) && p <= u < p + need)
  {
    hide InFree, Sorted;
    CutUnits(fl, j, j + 1, u);
    FewUnits(fl[j..j + 1], u);
    Sides(fl, j, u);
    if fl[j].n == need {
      ConcatUnits(fl[..j], fl[j + 1..], u);
    } else {
      var b := Blk(fl[j].a, fl[j].n - need);
      assert Cut(fl, j, need) == Splice(fl, j, b, j + 1);
      SpliceUnits(fl, j, b, j + 1, u);
    }
  }

  lemma CutNext(fl: seq<Blk>, j: nat, need: nat, i: nat)
    requires 1 <= j < |fl| && 0 < need <= fl[j].n && i < |Cut(fl, j, need)|
    ensures var r, k := Cut(fl, j, need), if fl[j].n == need && i >= j then i + 1 else i;
      && k < |fl| && (k == j ==> need < fl[j].n && r[i] == Blk(fl[j].a, fl[j].n - need)) && (k != j ==> r[i] == fl[k])
      && Next(r, i) == if fl[j].n == need && i == j - 1 then Next(fl, j) else Next(fl, k)
  {
  }

  lemma CutLink(mem: Mem, fl: seq<Blk>, j: nat, need: nat, i: nat)
    requires Ring(mem, fl) && 1 <= j < |fl| && 0 < need <= fl[j].n && i < |Cut(fl, j, need)|
    requires fl[j].a in mem && fl[j - 1].a in mem && mem[fl[j].a].size == fl[j].n
    ensures LinkAt(TakeStores(mem, fl[j - 1].a, fl[j].a, need), Cut(fl, j, need), i)
  {
    var k := if fl[j].n == need && i >= j then i + 1 else i;
    CutNext(fl, j, need, i);
    assert LinkAt(mem, fl, j) && LinkAt(mem, fl, j - 1) && LinkAt(mem, fl, k);
    assert fl[j - 1].a + fl[j - 1].n < fl[j].a;
    if k < j - 1 {
      assert fl[k].a + fl[k].n < fl[j - 1].a;
    } else if k > j {
      assert fl[j].a + fl[j].n < fl[k].a;
    }
    hide Ring, Sorted, Cut, Next;
  }

  lemma CutRing(mem: Mem, fl: seq<Blk>, j: nat, need: nat)
    requires Ring(mem, fl) && 1 <= j < |fl| && 0 < need <= fl[j].n
    ensures fl[j].a in mem && fl[j - 1].a in mem && mem[fl[j].a].size == fl[j].n
    ensures Ring(TakeStores(mem, fl[j - 1].a, fl[j].a, need), Cut(fl, j, need))
  {
    assert LinkAt(mem, fl, j) && LinkAt(mem, fl, j - 1);
    CutSorted(fl, j, need);
    var mem', r := TakeStores(mem, fl[j - 1].a, fl[j].a, need), Cut(fl, j, need);
    forall i | 0 <= i < |r| ensures LinkAt(mem', r, i) { CutLink(mem, fl, j, need, i); }
  }

  // ---- live blocks ----

  ghost predicate InLive(live: map<int, nat>, u: int) { exists a: int :: a in live && a <= u < a + live[a] }

  /** Live blocks do not overlap each other. */
  ghost predicate Spread(live: map<int, nat>) {
    forall a: int, b: int | a in live && b in live && a != b :: a + live[a] <= b || b + live[b] <= a
  }

  ghost predicate LiveOk(mem: Mem, live: map<int, nat>, base: int) {
    && (forall a: int | a in live :: a in mem && mem[a].size == live[a] > 0 && base < a)
    && Spread(live)
  }

  /** Every unit obtained from the system is free or live, and never both. */
  ghost predicate Tiled(fl: seq<Blk>, live: map<int, nat>, arena: set<int>) {
    && (forall u :: u in arena <==> InFree(fl, u) || InLive(live, u))
    && (forall u :: !(InFree(fl, u) && InLive(live, u)))
  }

  lemma ApartFrom(fl: seq<Blk>, a: int, n: nat)
    requires Sorted(fl) && n > 0 && fl[0].a < a && forall u | a <= u < a + n :: !InFree(fl, u)
    ensures Apart(fl, a, n)
  {
    forall i | 0 <= i < |fl| ensures (fl[i].a < a && fl[i].a + fl[i].n <= a) || a + n <= fl[i].a {
      if i > 0 {
        assert fl[0].a + fl[0].n < fl[i].a;
        if fl[i].a < a + n && a < fl[i].a + fl[i].n {
          var u := if a < fl[i].a then fl[i].a else a;
          assert InFree(fl, u);
        }
      }
    }
  }

  lemma FindBefore(fl: seq<Blk>, a: int) returns (t: nat)
    requires Sorted(fl) && fl[0].a < a && forall i | 0 <= i < |fl| :: fl[i].a != a
    ensures Before(fl, t, a)
  {
    t := 0;
    while t + 1 < |fl| && fl[t + 1].a < a
      invariant t < |fl| && fl[t].a < a
    {
      t := t + 1;
    }
  }

  ghost function Units(a: int, n: nat): (r: set<int>)
    ensures forall u :: u in r <==> a <= u < a + n
  {
    if n == 0 then {} else Units(a, n - 1) + {a + n - 1}
  }

  lemma LiveLess(live: map<int, nat>, bp: int, u: int)
    requires Spread(live) && bp in live
    ensures InLive(live, u) <==> InLive(live - {bp}, u) || bp <= u < bp + live[bp]
    ensures !(InLive(live - {bp}, u) && bp <= u < bp + live[bp])
  {
    var rest := live - {bp};
    if a: int :| a in live && a <= u < a + live[a] && a != bp { assert a in rest && rest[a] == live[a]; }
    if a: int :| a in rest && a <= u < a + rest[a] {
      assert a in live && a != bp && rest[a] == live[a];
      assert a + live[a] <= bp || bp + live[bp] <= a;
    }
  }

  lemma FreeTiled(fl: seq<Blk>, live: map<int, nat>, arena: set<int>, t: nat, bp: int)
    requires Sorted(fl) && Tiled(fl, live, arena) && bp in live && Apart(fl, bp, live[bp]) && Before(fl, t, bp)
    requires Spread(live)
    ensures Tiled(Ins(fl, t, bp, live[bp]), live - {bp}, arena)
  {
    forall u ensures (InFree(Ins(fl, t, bp, live[bp]), u) <==> InFree(fl, u) || bp <= u < bp + live[bp]) {
      InsUnits(fl, t, bp, live[bp], u);
    }
    forall u ensures (InLive(live, u) <==> InLive(live - {bp}, u) || bp <= u < bp + live[bp])
      && !(InLive(live - {bp}, u) && bp <= u < bp + live[bp])
    {
      LiveLess(live, bp, u);
    }
    hide Ins, InFree, InLive;
  }

  lemma CoreTiled(fl: seq<Blk>, live: map<int, nat>, arena: set<int>, t: nat, hp: int, n: nat)
    requires Sorted(fl) && Tiled(fl, live, arena) && Apart(fl, hp, n) && Before(fl, t, hp)
    requires forall u | hp <= u < hp + n :: u !in arena
    ensures Tiled(Ins(fl, t, hp, n), live, arena + Units(hp, n))
  {
    forall u ensures (InFree(Ins(fl, t, hp, n), u) <==> InFree(fl, u) || hp <= u < hp + n) {
      InsUnits(fl, t, hp, n, u);
    }
    hide Ins, InFree, InLive, Sorted, Apart, Before;
  }

  lemma TakeTiled(fl: seq<Blk>, live: map<int, nat>, arena: set<int>, j: nat, need: nat)
    requires Sorted(fl) && Tiled(fl, live, arena) && 1 <= j < |fl| && 0 < need <= fl[j].n
    requires forall a: int | a in live :: live[a] > 0
    ensures Taken(fl, j, need) !in live && Tiled(Cut(fl, j, need), live[Taken(fl, j, need) := need], arena)
  {
    var p := Taken(fl, j, need);
    forall u
      ensures InFree(fl, u) <==> InFree(Cut(fl, j, need), u) || p <= u < p + need
      ensures !(InFree(Cut(fl, j, need), u) && p <= u < p + need)
    {
      CutFreed(fl, j, need, u);
    }
    assert InFree(fl, p);
    assert p in live ==> InLive(live, p);
    forall u ensures InLive(live[p := need], u) <==> InLive(live, u) || p <= u < p + need {
      if a: int :| a in live && a <= u < a + live[a] { assert a in live[p := need]; }
      if p <= u < p + need { assert p in live[p := need]; }
    }
    hide Cut, InFree, InLive;
  }

  // ---- the allocator ----

  /** Units for `nbytes` of payload and a header. */
  function UnitsFor(nbytes: nat): (n: nat)
    ensures n * HEADER >= nbytes + HEADER && (n - 1) * HEADER < nbytes + HEADER
  {
    (nbytes + HEADER - 1) / HEADER + 1
  }

  function Core(nu: nat): nat { if nu < MINCORE then MINCORE else nu }

  ghost predicate Fits(fl: seq<Blk>, n: nat) { exists i :: 0 <= i < |fl| && fl[i].n >= n }

  /** The argument of sbrk: units times 16 bytes, passed as a 32-bit int. */
  function SbrkArg(nu: nat): int {
    var x := nu * 16 % 0x1_0000_0000;
    if x < 0x8000_0000 then x else x - 0x1_0000_0000
  }

  /** sbrk is asked for the bytes morecore wants exactly when they are fewer than 2^31. */
  lemma SbrkExact(nu: nat)
    ensures SbrkArg(nu) == nu * 16 <==> nu < 0x800_0000
  {
  }

  class Heap {
    const base: int
    var mem: Mem
    var freep: int
    ghost var fl: seq<Blk>
    ghost var live: map<int, nat>
    ghost var arena: set<int>

    /** The list is circular and address-ordered with one wrap, coalesced, starts anywhere
        freep says, and with the live blocks tiles everything obtained. */
    ghost predicate Ready()
      reads this
    {
      && Ring(mem, fl) && 0 < base == fl[0].a && freep != 0 && (exists f :: 0 <= f < |fl| && fl[f].a == freep)
      && LiveOk(mem, live, base) && Tiled(fl, live, arena)
    }

    ghost predicate Valid()
      reads this
    {
      if freep == 0 then 0 < base && live == map[] && arena == {} else 0 < base && Ready()
    }

    constructor (base: int)
      requires 0 < base
      ensures Valid() && live == map[] && arena == {}
    {
      this.base, freep, mem, live, arena, fl := base, 0, map[], map[], {}, [];
    }

    /** The search loop of free: the block after which `bp` belongs. */
    method FindSlot(bp: int) returns (p: int, ghost t: nat)
      requires Ring(mem, fl) && bp in mem && Apart(fl, bp, mem[bp].size)
      requires exists f :: 0 <= f < |fl| && fl[f].a == freep
      ensures Before(fl, t, bp) && t < |fl| && fl[t].a == p
    {
      hide Apart, Sorted, Ins;
      ApartFacts(fl, bp, mem[bp].size);
      t := FindBefore(fl, bp);
      ghost var i :| 0 <= i < |fl| && fl[i].a == freep;
      p := freep;
      assert LinkAt(mem, fl, i);
      while !(bp > p && bp < mem[p].ptr)
        invariant 0 <= i < |fl| && fl[i].a == p && LinkAt(mem, fl, i)
        decreases if i <= t then t - i else t - i + |fl|
      {
        SearchStep(fl, t, i, bp);
        if p >= mem[p].ptr && (bp > p || bp < mem[p].ptr) { break; }
        p, i := mem[p].ptr, if i + 1 < |fl| then i + 1 else 0;
        assert LinkAt(mem, fl, i);
      }
      SearchStep(fl, t, i, bp);
    }

    /** free, on any block that overlaps nothing free. */
    method Insert(bp: int) returns (ghost t: nat)
      requires Ring(mem, fl) && bp in mem && Apart(fl, bp, mem[bp].size)
      requires exists f :: 0 <= f < |fl| && fl[f].a == freep
      modifies this`mem, this`freep, this`fl
      ensures Before(old(fl), t, bp) && fl == Ins(old(fl), t, bp, old(mem[bp].size)) && freep == old(fl)[t].a
      ensures freep in old(mem) && old(mem)[freep].ptr in old(mem) && mem == FreeStores(old(mem), freep, bp)
    {
      hide Apart, Sorted, Ins;
      ApartFacts(fl, bp, mem[bp].size);
      var p;
      p, t := FindSlot(bp);
      assert LinkAt(mem, fl, t) && LinkAt(mem, fl, if t + 1 < |fl| then t + 1 else 0);
      var q := mem[p].ptr;
      if bp + mem[bp].size == q {
        mem := mem[bp := Header(mem[q].ptr, mem[bp].size + mem[q].size)];
      } else {
        mem := mem[bp := Header(q, mem[bp].size)];
      }
      if p + mem[p].size == bp {
        mem := mem[p := Header(mem[bp].ptr, mem[p].size + mem[bp].size)];
      } else {
        mem := mem[p := mem[p].(ptr := bp)];
      }
      freep := p;
      fl := Ins(fl, t, bp, old(mem[bp].size));
    }

    /** free(ap): the block is no longer live, every other block still is, no unit is lost. */
    method Free(ap: int)
      requires Valid() && ap - 1 in live
      modifies this
      ensures Valid() && live == old(live) - {ap - 1} && arena == old(arena)
    {
      hide Sorted, Tiled, Ins, FreeStores, Apart, Before, InFree, InLive, Units;
      var bp := ap - 1;
      LiveApart(mem, fl, live, arena, base, bp);
      ghost var mem0, fl0 := mem, fl;
      ghost var t := Insert(bp);
      InsRing(mem0, fl0, t, bp, live[bp]);
      FreeTiled(fl0, live, arena, t, bp);
      AllApart(mem0, fl0, live, arena, base);
      StoresKeep(mem0, fl0, t, bp, live[bp], live, base);
      InsBase(fl0, t, bp, live[bp]);
      assert fl[t].a == freep;
      live := live - {bp};
    }

    /** morecore: `brk` is what sbrk gave, None when it failed. */
    method Morecore(nu: nat, brk: Option<int>) returns (ok: bool)
      requires Ready() && nu > 0
      requires brk.Some? ==> base < brk.value && forall u | u in arena :: !(brk.value <= u < brk.value + Core(nu))
      modifies this
      ensures Ready() && live == old(live)
      ensures ok == brk.Some?
      ensures !ok ==> arena == old(arena) && fl == old(fl) && mem == old(mem) && freep == old(freep)
      ensures ok ==> arena == old(arena) + Units(brk.value, if nu < 4096 then 4096 else nu) && Fits(fl, nu)
    {
      hide Sorted, Tiled, Ins, FreeStores, Apart, Before, InFree, InLive, Units;
      if brk == None { return false; }
      var hp, n := brk.value, Core(nu);
      CoreApart(mem, fl, live, arena, hp, n);
      ghost var fl0 := fl;
      HeaderKeeps(mem, fl, live, hp, n, base);
      mem := mem[hp := Header(0, n)];
      ghost var mem0 := mem;
      ghost var t := Insert(hp);
      InsRing(mem0, fl0, t, hp, n);
      CoreTiled(fl0, live, arena, t, hp, n);
      AllApart(mem0, fl0, live, arena, base);
      StoresKeep(mem0, fl0, t, hp, n, live, base);
      InsBase(fl0, t, hp, n);
      assert fl[t].a == freep;
      assert live - {hp} == live;
      arena := arena + Units(hp, n);
      return true;
    }

    /** The end of malloc: `need` units off the end of block `j`. */
    method Take(prevp: int, p: int, need: nat, ghost j: nat) returns (ap: int)
      requires Ready() && 0 < j < |fl| && 0 < need <= fl[j].n && p == fl[j].a && prevp == fl[j - 1].a
      modifies this
      ensures Ready() && ap - 1 !in old(live) && live == old(live)[ap - 1 := need] && arena == old(arena)
      ensures ap - 1 == old(fl)[j].a + old(fl)[j].n - need && fl == Cut(old(fl), j, need) && freep == prevp
      ensures forall u | ap - 1 <= u < ap - 1 + need :: InFree(old(fl), u)
    {
      hide Sorted, Tiled, Cut, InFree, InLive;
      CutRing(mem, fl, j, need);
      TakeTiled(fl, live, arena, j, need);
      TakeKeeps(mem, fl, live, arena, j, need, base);
      CutBase(fl, j, need);
      var q := p;
      ghost var mem0 := mem;
      if mem[p].size == need {
        mem := mem[prevp := mem[prevp].(ptr := mem[p].ptr)];
      } else {
        mem := mem[p := mem[p].(size := mem[p].size - need)];
        q := p + mem[p].size;
        mem := mem[q := Header(if q in mem then mem[q].ptr else 0, need)];
      }
      assert mem == TakeStores(mem0, prevp, p, need);
      freep := prevp;
      fl := Cut(fl, j, need);
      live := live[q := need];
      assert fl[j - 1].a == freep;
      return q + 1;
    }

    /** malloc: one search, at most one morecore, one more search. */
    method Malloc(nbytes: nat, brk: Option<int>) returns (r: Option<int>)
      requires Valid()
      requires brk.Some? ==>
        base < brk.value && forall u | u in arena :: !(brk.value <= u < brk.value + Core(UnitsFor(nbytes)))
      modifies this
      ensures Valid()
      ensures r == None ==> brk == None && live == old(live) && arena == old(arena)
      ensures r.Some? ==>
        && r.value - 1 !in old(live) && live == old(live)[r.value - 1 := UnitsFor(nbytes)]
        && (arena == old(arena) || (brk.Some? && arena == old(arena) + Units(brk.value, Core(UnitsFor(nbytes)))))
      ensures old(freep) != 0 && Fits(old(fl), UnitsFor(nbytes)) ==>
        r.Some? && arena == old(arena) && NextFit(old(fl), old(freep), fl, freep, UnitsFor(nbytes), r.value - 1)
    {
      hide Ring, Tiled, LiveOk, InFree, InLive, Units, UnitsFor, Tried, Steps, Fits, NextIx, PrevIx, NextFit, Cut;
      var need := UnitsFor(nbytes);
      NeedPos(nbytes);
      if freep == 0 {
        mem := mem[base := Header(base, 0)];
        freep := base;
        fl := [Blk(base, 0)];
        FreshRing(mem, base);
      }
      ghost var f :| 0 <= f < |fl| && fl[f].a == freep;
      ghost var asked := false;
      var prevp := freep;
      RingAt(mem, fl, f);
      var p := mem[prevp].ptr;
      ghost var j := NextIx(f, |fl|);
      TriedStart(fl, f, need);
      while true
        invariant Ready() && 0 <= f < |fl| && fl[f].a == freep && 0 <= j < |fl| && p == fl[j].a
        invariant PrevIx(j, |fl|) < |fl| && prevp == fl[PrevIx(j, |fl|)].a
        invariant Tried(fl, f, j, need)
        invariant live == old(live)
        invariant !asked ==> arena == old(arena) && (old(freep) != 0 ==> fl == old(fl) && freep == old(freep))
        invariant asked ==> brk.Some? && arena == old(arena) + Units(brk.value, Core(need)) && Fits(fl, need)
        invariant asked && old(freep) != 0 ==> !Fits(old(fl), need)
        decreases !asked, |fl| - Steps(f, j, |fl|)
      {
        RingAt(mem, fl, j);
        if mem[p].size >= need {
          BaseEmpty(mem, fl, j);
          ghost var fl1, freep1 := fl, freep;
          var ap := Take(prevp, p, need, j);
          FoundFit(fl1, freep1, f, j, prevp, need);
          return Some(ap);
        }
        if p == freep {
          SameIndex(mem, fl, f, j);
          TriedAll(fl, f, need);
          assert !asked;
          var ok := Morecore(need, brk);
          if !ok { return None; }
          asked := true;
          p := freep;
          f :| 0 <= f < |fl| && fl[f].a == freep;
          j := f;
          TriedStart(fl, f, need);
        } else {
          TriedStep(fl, f, j, need);
        }
        RingAt(mem, fl, j);
        prevp, p, j := p, mem[p].ptr, NextIx(j, |fl|);
      }
    }
  }

  /** How many links lead from block `f` to block `i` in a ring of `n`; a full turn back to `f`. */
  function Steps(f: int, i: int, n: int): int { if i > f then i - f else i - f + n }

  function NextIx(j: nat, n: nat): nat { if j + 1 < n then j + 1 else 0 }

  function PrevIx(j: nat, n: nat): nat
    requires n > 0
  {
    if j > 0 then j - 1 else n - 1
  }

  /** malloc has looked at every block after `f` up to `j`, and none is big enough. */
  ghost predicate Tried(fl: seq<Blk>, f: nat, j: nat, need: nat) {
    forall i | 0 <= i < |fl| && Steps(f, i, |fl|) < Steps(f, j, |fl|) :: fl[i].n < need
  }

  /** The first block after freep that is big enough gives up its end, and freep is then the block before it. */
  ghost predicate NextFit(fl: seq<Blk>, freep: int, fl': seq<Blk>, freep': int, need: nat, a: int) {
    exists f, j :: 0 <= f < |fl| && 0 < j < |fl| && fl[f].a == freep && fl[j].n >= need && Tried(fl, f, j, need) &&
      fl' == Cut(fl, j, need) && freep' == fl[j - 1].a && a == fl[j].a + fl[j].n - need
  }

  lemma FoundFit(fl: seq<Blk>, freep: int, f: nat, j: nat, prevp: int, need: nat)
    requires f < |fl| && 0 < j < |fl| && fl[f].a == freep && fl[j].n >= need && Tried(fl, f, j, need)
    requires prevp == fl[PrevIx(j, |fl|)].a
    ensures NextFit(fl, freep, Cut(fl, j, need), prevp, need, fl[j].a + fl[j].n - need)
  {
    hide Cut, Tried;
  }

  lemma TriedStart(fl: seq<Blk>, f: nat, need: nat)
    requires f < |fl|
    ensures Tried(fl, f, NextIx(f, |fl|), need) && Steps(f, NextIx(f, |fl|), |fl|) <= |fl|
  {
  }

  lemma TriedStep(fl: seq<Blk>, f: nat, j: nat, need: nat)
    requires f < |fl| && j < |fl| && j != f && Tried(fl, f, j, need) && fl[j].n < need
    ensures Tried(fl, f, NextIx(j, |fl|), need) && Steps(f, j, |fl|) < Steps(f, NextIx(j, |fl|), |fl|) <= |fl|
  {
  }

  lemma TriedAll(fl: seq<Blk>, f: nat, need: nat)
    requires f < |fl| && Tried(fl, f, f, need) && fl[f].n < need
    ensures !Fits(fl, need)
  {
  }

  lemma RingAt(mem: Mem, fl: seq<Blk>, i: nat)
    requires Ring(mem, fl) && i < |fl|
    ensures fl[i].a in mem && mem[fl[i].a].size == fl[i].n && NextIx(i, |fl|) < |fl|
    ensures mem[fl[i].a].ptr == fl[NextIx(i, |fl|)].a
    ensures PrevIx(NextIx(i, |fl|), |fl|) == i
  {
    assert LinkAt(mem, fl, i);
  }

  lemma SameIndex(mem: Mem, fl: seq<Blk>, i: nat, j: nat)
    requires Ring(mem, fl) && i < |fl| && j < |fl| && fl[i].a == fl[j].a
    ensures i == j
  {
  }

  lemma BaseEmpty(mem: Mem, fl: seq<Blk>, j: nat)
    requires Ring(mem, fl) && j < |fl| && fl[j].n > 0
    ensures j > 0 && PrevIx(j, |fl|) == j - 1
  {
  }

  lemma FreshRing(mem: Mem, base: int)
    requires base in mem && mem[base] == Header(base, 0)
    ensures Ring(mem, [Blk(base, 0)]) && Tiled([Blk(base, 0)], map[], {}) && LiveOk(mem, map[], base)
  {
    assert LinkAt(mem, [Blk(base, 0)], 0);
  }

  lemma NeedPos(nbytes: nat)
    ensures UnitsFor(nbytes) > 0
  {
  }

  lemma CutBase(fl: seq<Blk>, j: nat, need: nat)
    requires Sorted(fl) && 1 <= j < |fl| && 0 < need <= fl[j].n
    ensures var r := Cut(fl, j, need);
      |r| >= j && r[0].a == fl[0].a && r[j - 1].a == fl[j - 1].a && fl[0].a <= fl[j - 1].a
    ensures var p := Taken(fl, j, need); forall u | p <= u < p + need :: InFree(fl, u)
  {
    assert j > 1 ==> fl[0].a + fl[0].n < fl[j - 1].a;
    var p := Taken(fl, j, need);
    forall u | p <= u < p + need ensures InFree(fl, u) { assert fl[j].a <= u < fl[j].a + fl[j].n; }
  }

  /** malloc's stores leave the live headers alone and make the new one. */
  lemma TakeKeeps(mem: Mem, fl: seq<Blk>, live: map<int, nat>, arena: set<int>, j: nat, need: nat, base: int)
    requires Ring(mem, fl) && base == fl[0].a && 1 <= j < |fl| && 0 < need <= fl[j].n && LiveOk(mem, live, base)
    requires Tiled(fl, live, arena)
    requires fl[j].a in mem && fl[j - 1].a in mem && mem[fl[j].a].size == fl[j].n
    ensures LiveOk(TakeStores(mem, fl[j - 1].a, fl[j].a, need), live[Taken(fl, j, need) := need], base)
  {
    var p := Taken(fl, j, need);
    AllApart(mem, fl, live, arena, base);
    assert fl[0].a + fl[0].n < fl[j].a;
    forall a: int | a in live ensures a != fl[j].a && a != fl[j - 1].a && (a + live[a] <= p || p + need <= a) {
      ApartFacts(fl, a, live[a]);
      assert Apart(fl, a, live[a]);
    }
    hide Ring, Tiled, Apart, Sorted;
  }

  /** A live block overlaps nothing free. */
  lemma LiveApart(mem: Mem, fl: seq<Blk>, live: map<int, nat>, arena: set<int>, base: int, a: int)
    requires Ring(mem, fl) && fl[0].a == base && LiveOk(mem, live, base) && Tiled(fl, live, arena) && a in live
    ensures a in mem && mem[a].size == live[a] && Apart(fl, a, live[a])
  {
    forall u | a <= u < a + live[a] ensures !InFree(fl, u) { assert InLive(live, u); }
    ApartFrom(fl, a, live[a]);
  }

  lemma AllApart(mem: Mem, fl: seq<Blk>, live: map<int, nat>, arena: set<int>, base: int)
    requires Ring(mem, fl) && fl[0].a == base && LiveOk(mem, live, base) && Tiled(fl, live, arena)
    ensures forall b: int | b in live :: Apart(fl, b, live[b])
  {
    forall b: int | b in live ensures Apart(fl, b, live[b]) { LiveApart(mem, fl, live, arena, base, b); }
  }

  lemma CoreApart(mem: Mem, fl: seq<Blk>, live: map<int, nat>, arena: set<int>, hp: int, n: nat)
    requires Ring(mem, fl) && Tiled(fl, live, arena) && n > 0 && fl[0].a < hp
    requires forall u | u in arena :: !(hp <= u < hp + n)
    ensures Apart(fl, hp, n) && forall u | hp <= u < hp + n :: u !in arena && !InLive(live, u)
  {
    forall u | hp <= u < hp + n ensures !InFree(fl, u) && u !in arena && !InLive(live, u) {}
    ApartFrom(fl, hp, n);
  }

  /** Writing a header into fresh space disturbs neither the ring nor a live block. */
  lemma HeaderKeeps(mem: Mem, fl: seq<Blk>, live: map<int, nat>, hp: int, n: nat, base: int)
    requires Ring(mem, fl) && Apart(fl, hp, n) && LiveOk(mem, live, base)
    requires forall u | hp <= u < hp + n :: !InLive(live, u)
    ensures hp !in live && Ring(mem[hp := Header(0, n)], fl) && LiveOk(mem[hp := Header(0, n)], live, base)
  {
    var mem' := mem[hp := Header(0, n)];
    forall i | 0 <= i < |fl| ensures LinkAt(mem', fl, i) { assert LinkAt(mem, fl, i); }
    if hp in live { assert InLive(live, hp); }
  }

  /** free's stores leave the headers of the other live blocks alone. */
  lemma StoresKeep(mem: Mem, fl: seq<Blk>, t: nat, a: int, n: nat, live: map<int, nat>, base: int)
    requires Ring(mem, fl) && Apart(fl, a, n) && Before(fl, t, a) && a in mem && mem[a].size == n
    requires LiveOk(mem, live, base)
    requires forall b: int | b in live :: Apart(fl, b, live[b])
    ensures fl[t].a in mem && mem[fl[t].a].ptr in mem && LiveOk(FreeStores(mem, fl[t].a, a), live - {a}, base)
  {
    StoresAt(mem, fl, t, a, n);
    forall b: int | b in live ensures b != fl[t].a { ApartFacts(fl, b, live[b]); }
    hide FreeStores, Apart, Ring, Before;
  }

  lemma InsBase(fl: seq<Blk>, t: nat, a: int, n: nat)
    requires Sorted(fl) && Apart(fl, a, n) && Before(fl, t, a)
    ensures var r := Ins(fl, t, a, n);
      && |r| > t && r[0].a == fl[0].a && fl[0].a <= r[t].a == fl[t].a
      && (r[t].n >= n || (t + 1 < |r| && r[t + 1].n >= n))
  {
    assert t == 0 ==> fl[t].a + fl[t].n != a;
    assert t > 0 ==> fl[0].a + fl[0].n < fl[t].a;
  }

  lemma ApartFacts(fl: seq<Blk>, a: int, n: nat)
    requires Apart(fl, a, n)
    ensures |fl| > 0 && fl[0].a < a && forall i | 0 <= i < |fl| :: fl[i].a != a
  {
  }

  /** free's loop stops at `i` exactly when `i` is the block before `a`. */
  lemma SearchStep(fl: seq<Blk>, t: nat, i: nat, a: int)
    requires Sorted(fl) && Before(fl, t, a) && fl[0].a < a && i < |fl| && forall k | 0 <= k < |fl| :: fl[k].a != a
    ensures (a > fl[i].a && a < Next(fl, i)) || (fl[i].a >= Next(fl, i) && (a > fl[i].a || a < Next(fl, i))) <==> i == t
    ensures fl[i].a >= Next(fl, i) <==> i + 1 == |fl|
  {
    if i < t { assert fl[i + 1].a <= fl[t].a; }
    if i > t { assert fl[t + 1].a <= fl[i].a; }
    if i + 1 == |fl| && i > 0 { assert fl[0].a < fl[i].a; }
  }
}
