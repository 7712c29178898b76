/** Runs of the ringbuf system call from boot into its failures: a panic while appending, a ring lost to create, and a
    table that is full for good. */
module RingRuns {
  import opened Params
  import opened RingPages
  import opened RingRegistry
  import opened RingCalls
  import opened RingKernel

  /** Two processes with empty tables and no ring. */
  ghost predicate Booted(k: K, free: set<int>) {
    && |k.slots| == |k.users| == MAX_RINGBUFS && k.free == free && k.tables == map[1 := map[], 2 := map[]]
    && forall i | 0 <= i < MAX_RINGBUFS :: !Live(k.slots[i])
  }

  /** The rings in the first slots, by name and count, and no others. */
  ghost predicate Rings(slots: seq<Slot>, names: seq<string>, counts: seq<int>) {
    && |names| == |counts| <= |slots| == MAX_RINGBUFS
    && (forall i | 0 <= i < |names| :: slots[i].name == names[i] != "" && slots[i].refcount == counts[i])
    && (forall i | |names| <= i < |slots| :: !Live(slots[i]))
  }

  /** A table with n windows, one directly below the other, and nothing else. */
  ghost predicate Stacked(t: Table, n: nat) { forall v :: v in t <==> TOP - 1 - 33 * n < v <= TOP - 1 }

  function NextTop(n: nat): int { TOP - 1 - 33 * n }

  lemma {:induction false} RingsCount(slots: seq<Slot>, n: nat, m: nat)
    requires n <= m <= |slots| && forall i | 0 <= i < |slots| :: Live(slots[i]) <==> i < n
    ensures LiveCount(slots[..m]) == n
    decreases m
  {
    if m == n {
      CountBound(slots[..n]);
    } else {
      RingsCount(slots, n, m - 1);
      assert slots[..m][..m - 1] == slots[..m - 1];
    }
  }

  lemma RingsSize(slots: seq<Slot>, names: seq<string>, counts: seq<int>)
    requires Rings(slots, names, counts)
    ensures |slots| == MAX_RINGBUFS
  {
  }

  lemma RingsLive(slots: seq<Slot>, names: seq<string>, counts: seq<int>, name: string)
    requires Rings(slots, names, counts)
    ensures LiveCount(slots) == |names| && (name != "" ==> (Named(slots, name) <==> name in names))
  {
    RingsCount(slots, |names|, |slots|);
    assert slots[..|slots|] == slots;
    if name in names {
      var i :| 0 <= i < |names| && names[i] == name;
      assert slots[i].name == name;
    }
  }

  /** Where the next window goes. */
  lemma StackedRun(t: Table, n: nat)
    requires Stacked(t, n) && n <= MAX_RINGBUFS
    ensures var hi := if n == 0 then TOP else NextTop(n);
      Highest(t, hi) && CreateTop(hi) == NextTop(n) && HasGap(t) && Room(t)
  {
    var hi := if n == 0 then TOP else NextTop(n);
    assert FreeRun(t, hi, WANT);
    assert 1 !in t;
    forall h | hi < h <= TOP ensures !FreeRun(t, h, WANT) {
      assert if h == TOP then TOP - 1 in t && TOP - WANT < TOP - 1 <= TOP else h in t && h - WANT < h <= h;
    }
  }

  lemma StackedNext(t: Table, t': Table, n: nat, s: Slot)
    requires |s.buf| == RINGBUF_SIZE && Stacked(t, n) && Added(t, t', NextTop(n), s)
    ensures Stacked(t', n + 1)
  {
    forall v ensures v in t' <==> TOP - 1 - 33 * (n + 1) < v <= TOP - 1 {
      if Placed(NextTop(n), v) { WindowPages(t', NextTop(n), s, v); }
    }
  }

  /** The first window gone, the second still there: append's book page would be the second's top page. */
  lemma HoleAtTop(t: Table, t': Table)
    requires Stacked(t, 2) && forall v :: v in t' <==> v in t && !Placed(TOP - 1, v)
    ensures Highest(t', TOP) && BookTaken(t') && HasGap(t')
  {
    assert 1 !in t';
    assert FreeRun(t', TOP, WANT);
  }

  lemma {:induction false} SetOfSeq(s: seq<int>)
    ensures |set p | p in s| <= |s|
    decreases |s|
  {
    if s == [] {
      assert (set p | p in s) == {};
    } else {
      var rest := s[..|s| - 1];
      SetOfSeq(rest);
      assert (set p | p in s) == (set p | p in rest) + {s[|s| - 1]};
    }
  }

  lemma FewerFree(free: set<int>, s: Slot)
    requires |s.buf| == RINGBUF_SIZE
    ensures |free - Pages(s)| >= |free| - 17
  {
    SetOfSeq(s.buf);
    var pages := Pages(s);
    assert |pages| <= 17;
    assert |(free - pages) + pages| <= |free - pages| + |pages|;
    assert (free - pages) + pages == free + pages;
    assert |free| <= |free + pages| by { assert free + pages == free + (pages - free); }
  }

  lemma MoreFree(a: set<int>, b: set<int>)
    requires a <= b
    ensures |a| <= |b|
  {
    assert b == a + (b - a);
  }

  // ---- what a call with known circumstances does ----

  lemma WillCreate(k: K, k': K, c: Call, r: int, hi: int)
    requires Step(k, k', c, r) && !Refused(k, c) && c.open && c.copied && c.p in k.tables && !Named(k.slots, c.name)
    requires Highest(k.tables[c.p], hi) && |k.free| > RINGBUF_SIZE
    ensures r == 0 && Created(k, k', c.p, CreateTop(hi), c.name)
  {
    hide Created, Highest, Named, LiveCount;
    var i: nat, h :| OpenStep(k, k', c.p, c.name, c.copied, r, i, h);
    RoomAt(k.tables[c.p], hi);
    HighestUnique(k.tables[c.p], hi, h);
  }

  lemma WillAppend(k: K, k': K, c: Call, r: int, hi: int, i: nat)
    requires Step(k, k', c, r) && !Refused(k, c) && c.open && c.copied && c.p in k.tables && Inv(k) && c.name != ""
    requires i < |k.slots| && k.slots[i].name == c.name && Highest(k.tables[c.p], hi)
    ensures if BookTaken(k.tables[c.p]) then r == -2 else r == 0 && Appended(k, k', i, c.p, AppendTop(hi))
  {
    hide Appended, Highest, LiveCount, Inv, BookTaken;
    assert Named(k.slots, c.name);
    var j: nat, h :| OpenStep(k, k', c.p, c.name, c.copied, r, j, h);
    RoomAt(k.tables[c.p], hi);
    HighestUnique(k.tables[c.p], hi, h);
    OneNamed(k, c.name, i, j);
  }

  lemma RoomAt(t: Table, hi: int)
    requires Highest(t, hi)
    ensures Room(t)
  {
  }

  lemma WillClose(k: K, k': K, c: Call, r: int, i: nat)
    requires Step(k, k', c, r) && !Refused(k, c) && !c.open && Inv(k) && c.name != ""
    requires i < |k.slots| == |k.users| && k.slots[i].name == c.name && (c.p, c.addr) in k.users[i]
    ensures r == 0 && Closed(k, k', i, c.p, c.addr)
  {
    hide LiveCount, Inv, Unmaps, Placed;
    assert Named(k.slots, c.name);
    var j: nat :| CloseStep(k, k', c.p, c.name, c.addr, r, j);
    OneNamed(k, c.name, i, j);
    Sizes(k);
    UserMapped(k, i, c.p, c.addr);
  }

  lemma CreatedRings(k: K, k': K, p: int, top: int, name: string, names: seq<string>, counts: seq<int>)
    requires Created(k, k', p, top, name) && Rings(k.slots, names, counts) && name != ""
    ensures Rings(k'.slots, names + [name], counts + [1]) && |k'.free| >= |k.free| - 17
    ensures (p, top) in k'.users[|names|] && |k'.users| == |k'.slots|
  {
    hide Added, Pages, LiveCount;
    RingsLive(k.slots, names, counts, name);
    FewerFree(k.free, k'.slots[|names|]);
  }

  lemma RunsOn(ks: seq<K>, cs: seq<Call>, rs: seq<int>, k': K, c: Call, r: int)
    requires Run(ks, cs, rs) && Step(ks[|cs|], k', c, r) && c.name != "" && c.p in ks[|cs|].tables && -2 !in rs
    ensures Run(ks + [k'], cs + [c], rs + [r])
  {
    hide Step;
    var ks', cs', rs' := ks + [k'], cs + [c], rs + [r];
    forall n | 0 <= n < |cs'| ensures Step(ks'[n], ks'[n + 1], cs'[n], rs'[n]) && cs'[n].p in ks'[n].tables {
      assert n < |cs| ==> ks'[n + 1] == ks[n + 1];
    }
  }

  lemma NoRun(k: K)
    ensures Run([k], [], [])
  {
  }

  function Create1(name: string): Call { Call(1, name, true, 0, true) }

  function Open2(name: string): Call { Call(2, name, true, 0, true) }

  function Close1(name: string, addr: int): Call { Call(1, name, false, addr, true) }

  method Boot(free: set<int>) returns (k: Kernel)
    ensures fresh(k) && k.Valid() && Booted(k.Now(), free) && Rings(k.slots, [], []) && Stacked(k.tables[1], 0)
  {
    k := new Kernel(free, map[1 := map[], 2 := map[]]);
  }

  /** Process 1 creates one more ring below the others. */
  method CreateNext(k: Kernel, name: string, ghost names: seq<string>, ghost counts: seq<int>, ghost n: nat)
    returns (r: int)
    requires k.Valid() && Rings(k.slots, names, counts) && |names| < MAX_RINGBUFS && name !in names
    requires name != "" && |name| <= RINGBUF_NAME_LEN && |k.free| > RINGBUF_SIZE
    requires 1 in k.tables && Stacked(k.tables[1], n) && n <= |names|
    modifies k
    ensures r == 0 && Step(old(k.Now()), k.Now(), Create1(name), r) && k.Valid()
    ensures Created(old(k.Now()), k.Now(), 1, NextTop(n), name)
    ensures Rings(k.slots, names + [name], counts + [1]) && |k.free| >= |old(k.free)| - 17
    ensures 1 in k.tables && Stacked(k.tables[1], n + 1) && |k.users| == MAX_RINGBUFS
    ensures (1, NextTop(n)) in k.users[|names|]
  {
    hide Inv, Total, LiveCount, Step, HasGap, Harmless, Opens, Stacked, Rings, Created, Highest, Room, Named;
    RingsLive(k.slots, names, counts, name);
    StackedRun(k.tables[1], n);
    ghost var k0 := k.Now();
    var top;
    r, top := k.Ringbuf(Create1(name));
    WillCreate(k0, k.Now(), Create1(name), r, if n == 0 then TOP else NextTop(n));
    NextStack(k0, k.Now(), name, n, names, counts);
    FreshSlot(k0, k.Now(), name, names, counts, NextTop(n));
  }

  lemma NextStack(k: K, k': K, name: string, n: nat, names: seq<string>, counts: seq<int>)
    requires Created(k, k', 1, NextTop(n), name) && 1 in k.tables && Stacked(k.tables[1], n)
    requires Rings(k.slots, names, counts) && name != ""
    ensures 1 in k'.tables && Stacked(k'.tables[1], n + 1) && Rings(k'.slots, names + [name], counts + [1])
    ensures |k'.free| >= |k.free| - 17 && |k'.users| == MAX_RINGBUFS && (1, NextTop(n)) in k'.users[|names|]
  {
    hide Added, Pages, LiveCount, Stacked;
    CreatedRings(k, k', 1, NextTop(n), name, names, counts);
    StackedNext(k.tables[1], k'.tables[1], n, k'.slots[LiveCount(k.slots)]);
  }

  lemma FreshSlot(k: K, k': K, name: string, names: seq<string>, counts: seq<int>, top: int)
    requires Inv(k) && Created(k, k', 1, top, name) && Rings(k.slots, names, counts) && name !in names && name != ""
    ensures Inv(k')
  {
    hide Inv, Created, LiveCount, Total;
    RingsLive(k.slots, names, counts, name);
    CreatedKeeps(k, k', 1, top, name);
  }

  /** Process 1 creates a, process 2 opens it, process 1 creates b, closes a and opens a again: mappages panics. */
  method ReopenPanics(free: set<int>) returns (rs: seq<int>, ghost ks: seq<K>, ghost cs: seq<Call>)
    requires |free| > 34
    ensures cs == [Create1("a"), Open2("a"), Create1("b"), Close1("a", TOP - 1), Create1("a")]
    ensures rs == [0, 0, 0, 0, -2] && Run(ks, cs, rs) && Booted(ks[0], free) && Inv(ks[4])
    ensures 1 in ks[4].tables && BookTaken(ks[4].tables[1])
  {
    hide Inv, Total, LiveCount, Step, HasGap, Harmless, Opens, Stacked, Rings, Created, Appended, Closed, Highest, Room,
         Named, Booted, Run, BookTaken;
    var k := Boot(free);
    assert 1 in k.tables && 2 in k.tables && k.free == free by { BootedFacts(k.Now(), free); }
    ks, cs, rs := [k.Now()], [], [];
    NoRun(k.Now());
    var r := CreateNext(k, "a", [], [], 0);
    assert [] + ["a"] == ["a"] && [] + [1] == [1];
    RunsOn(ks, cs, rs, k.Now(), Create1("a"), r);
    ks, cs, rs := ks + [k.Now()], cs + [Create1("a")], rs + [r];
    ghost var k1 := k.Now();
    SecondTable(ks[0], k1, free);
    var top;
    r, top := k.Ringbuf(Open2("a"));
    Shared(k1, k.Now(), r);
    RunsOn(ks, cs, rs, k.Now(), Open2("a"), r);
    ks, cs, rs := ks + [k.Now()], cs + [Open2("a")], rs + [r];
    ghost var k2 := k.Now();
    r := CreateNext(k, "b", ["a"], [2], 1);
    ghost var k3 := k.Now();
    RunsOn(ks, cs, rs, k3, Create1("b"), r);
    ks, cs, rs := ks + [k3], cs + [Create1("b")], rs + [r];
    BothOpen(k2, k3);
    StackedRun(k.tables[1], 2);
    r, top := k.Ringbuf(Close1("a", TOP - 1));
    ghost var k4 := k.Now();
    FirstClosed(k3, k4, r);
    RunsOn(ks, cs, rs, k4, Close1("a", TOP - 1), r);
    ks, cs, rs := ks + [k4], cs + [Close1("a", TOP - 1)], rs + [r];
    r, top := k.Ringbuf(Create1("a"));
    Reopened(k4, k.Now(), r);
    RunsOn(ks, cs, rs, k.Now(), Create1("a"), r);
    ks, cs, rs := ks + [k.Now()], cs + [Create1("a")], rs + [r];
  }

  lemma BootedFacts(k: K, free: set<int>)
    requires Booted(k, free)
    ensures 1 in k.tables && 2 in k.tables && k.free == free && k.tables[2] == map[]
  {
  }

  /** Process 2 has an empty table after process 1 created a. */
  lemma SecondTable(k0: K, k1: K, free: set<int>)
    requires Booted(k0, free) && Created(k0, k1, 1, NextTop(0), "a")
    ensures 2 in k1.tables && k1.tables[2] == map[] && HasGap(k1.tables[2]) && Highest(k1.tables[2], TOP)
    ensures !BookTaken(k1.tables[2])
  {
    hide Added, Pages, LiveCount;
    var t: Table := map[];
    assert 1 !in t;
  }

  lemma Shared(k: K, k': K, r: int)
    requires Inv(k) && Step(k, k', Open2("a"), r) && Rings(k.slots, ["a"], [1]) && 2 in k.tables && 1 in k.tables
    requires Highest(k.tables[2], TOP) && !BookTaken(k.tables[2]) && Stacked(k.tables[1], 1)
    requires |k.users| == MAX_RINGBUFS
    requires (1, TOP - 1) in k.users[0]
    ensures r == 0 && Inv(k') && Rings(k'.slots, ["a"], [2]) && 1 in k'.tables && Stacked(k'.tables[1], 1)
    ensures k'.free == k.free && |k'.users| == MAX_RINGBUFS && (1, TOP - 1) in k'.users[0]
  {
    hide Inv, LiveCount, Step, Highest, Stacked, BookTaken, Added;
    RingsLive(k.slots, ["a"], [1], "a");
    WillAppend(k, k', Open2("a"), r, TOP, 0);
    AppendKeeps(k, k', 0, 2, AppendTop(TOP));
  }

  lemma BothOpen(k2: K, k3: K)
    requires Created(k2, k3, 1, NextTop(1), "b") && Rings(k2.slots, ["a"], [2]) && (|k2.users| == MAX_RINGBUFS)
    requires (1, TOP - 1) in k2.users[0]
    ensures |k3.users| == MAX_RINGBUFS && (1, TOP - 1) in k3.users[0]
  {
    hide Added, Pages, LiveCount;
    RingsLive(k2.slots, ["a"], [2], "b");
  }

  lemma FirstClosed(k: K, k': K, r: int)
    requires Inv(k) && Step(k, k', Close1("a", TOP - 1), r) && Rings(k.slots, ["a"] + ["b"], [2] + [1])
    requires |k.users| == MAX_RINGBUFS && (1, TOP - 1) in k.users[0] && 1 in k.tables && Stacked(k.tables[1], 2)
    ensures r == 0 && Inv(k') && Rings(k'.slots, ["a", "b"], [1, 1])
    ensures 1 in k'.tables && Highest(k'.tables[1], TOP) && BookTaken(k'.tables[1]) && HasGap(k'.tables[1])
  {
    hide Inv, LiveCount, Step, Highest, Stacked, BookTaken, HasGap, Pages;
    RingsLive(k.slots, ["a"] + ["b"], [2] + [1], "a");
    WillClose(k, k', Close1("a", TOP - 1), r, 0);
    CloseInv(k, k', 0, 1, TOP - 1);
    HoleAtTop(k.tables[1], k'.tables[1]);
  }

  lemma Reopened(k: K, k': K, r: int)
    requires Inv(k) && Step(k, k', Create1("a"), r) && Rings(k.slots, ["a", "b"], [1, 1])
    requires 1 in k.tables && Highest(k.tables[1], TOP) && BookTaken(k.tables[1])
    ensures r == -2
  {
    hide Inv, LiveCount, Step, Highest, BookTaken;
    RingsLive(k.slots, ["a", "b"], [1, 1], "a");
    WillAppend(k, k', Create1("a"), r, TOP, 0);
  }

  /** Process 1 creates a and b, closes a and creates c: the ring b is gone and its pages are neither free nor held. */
  method CreateOverwrites(free: set<int>) returns (rs: seq<int>, ghost ks: seq<K>, ghost cs: seq<Call>)
    requires |free| > 50
    ensures cs == [Create1("a"), Create1("b"), Close1("a", TOP - 1), Create1("c")] && rs == [0, 0, 0, 0]
    ensures Run(ks, cs, rs) && Booted(ks[0], free) && Inv(ks[4]) && |ks[2].slots| == MAX_RINGBUFS
    ensures Named(ks[3].slots, "b") && !Named(ks[4].slots, "b") && Pages(ks[2].slots[1]) !! Total(ks[4])
    ensures ks[2].slots[1].name == "b" && ks[3].slots[1] == ks[2].slots[1]
  {
    hide Inv, Total, LiveCount, Step, HasGap, Harmless, Opens, Stacked, Rings, Created, Appended, Closed, Highest, Room,
         Named, Booted, Run, BookTaken, Pages;
    var k := Boot(free);
    assert 1 in k.tables && k.free == free by { BootedFacts(k.Now(), free); }
    ks, cs, rs := [k.Now()], [], [];
    NoRun(k.Now());
    var r := CreateNext(k, "a", [], [], 0);
    assert [] + ["a"] == ["a"] && [] + [1] == [1];
    RunsOn(ks, cs, rs, k.Now(), Create1("a"), r);
    ks, cs, rs := ks + [k.Now()], cs + [Create1("a")], rs + [r];
    ghost var k1 := k.Now();
    r := CreateNext(k, "b", ["a"], [1], 1);
    ghost var k2 := k.Now();
    RunsOn(ks, cs, rs, k2, Create1("b"), r);
    ks, cs, rs := ks + [k2], cs + [Create1("b")], rs + [r];
    StillFirst(k1, k2);
    StackedRun(k.tables[1], 2);
    var top;
    r, top := k.Ringbuf(Close1("a", TOP - 1));
    ghost var k3 := k.Now();
    LastClosed(k2, k3, r);
    RunsOn(ks, cs, rs, k3, Close1("a", TOP - 1), r);
    ks, cs, rs := ks + [k3], cs + [Close1("a", TOP - 1)], rs + [r];
    r, top := k.Ringbuf(Create1("c"));
    ghost var k4 := k.Now();
    Overwritten(k3, k4, r);
    RingsSize(k2.slots, ["a"] + ["b"], [1] + [1]);
    RunsOn(ks, cs, rs, k4, Create1("c"), r);
    ks, cs, rs := ks + [k4], cs + [Create1("c")], rs + [r];
  }

  lemma StillFirst(k1: K, k2: K)
    requires Created(k1, k2, 1, NextTop(1), "b") && Rings(k1.slots, ["a"], [1]) && (|k1.users| == MAX_RINGBUFS)
    requires (1, TOP - 1) in k1.users[0]
    ensures |k2.users| == MAX_RINGBUFS && (1, TOP - 1) in k2.users[0]
  {
    hide Added, Pages, LiveCount;
    RingsLive(k1.slots, ["a"], [1], "b");
  }

  /** Only slot 1 is live. */
  ghost predicate OnlySecond(slots: seq<Slot>) {
    |slots| == MAX_RINGBUFS && slots[1].name == "b" && forall i | 0 <= i < |slots| && i != 1 :: !Live(slots[i])
  }

  lemma OnlyCount(slots: seq<Slot>)
    requires OnlySecond(slots)
    ensures LiveCount(slots) == 1 && !Named(slots, "c") && Named(slots, "b")
  {
    var none := slots[1 := Slot(0, "", [], 0)];
    RingsCount(none, 0, |none|);
    assert none[..|none|] == none && none[1 := slots[1]] == slots;
    CountUpdate(none, 1, slots[1]);
  }

  lemma LastClosed(k: K, k': K, r: int)
    requires Inv(k) && Step(k, k', Close1("a", TOP - 1), r) && Rings(k.slots, ["a"] + ["b"], [1] + [1])
    requires |k.users| == MAX_RINGBUFS && (1, TOP - 1) in k.users[0] && 1 in k.tables && Stacked(k.tables[1], 2)
    ensures r == 0 && Inv(k') && OnlySecond(k'.slots) && k'.slots[1] == k.slots[1] && |k'.free| >= |k.free|
    ensures 1 in k'.tables && Highest(k'.tables[1], TOP) && HasGap(k'.tables[1])
  {
    hide Inv, LiveCount, Step, Highest, Stacked, BookTaken, HasGap, Pages;
    RingsLive(k.slots, ["a"] + ["b"], [1] + [1], "a");
    WillClose(k, k', Close1("a", TOP - 1), r, 0);
    CloseInv(k, k', 0, 1, TOP - 1);
    HoleAtTop(k.tables[1], k'.tables[1]);
    MoreFree(k.free, k'.free);
  }

  lemma Overwritten(k: K, k': K, r: int)
    requires Inv(k) && Step(k, k', Create1("c"), r) && OnlySecond(k.slots) && 1 in k.tables && Highest(k.tables[1], TOP)
    requires |k.free| > RINGBUF_SIZE
    ensures r == 0 && Inv(k') && Named(k.slots, "b") && !Named(k'.slots, "b") && Pages(k.slots[1]) !! Total(k')
  {
    hide Inv, LiveCount, Step, Highest, Pages, Total, Added;
    OnlyCount(k.slots);
    WillCreate(k, k', Create1("c"), r, TOP);
    CreatedOver(k, k', 1, CreateTop(TOP), "c");
  }

  // ---- a full table ----

  /** Ten different names. */
  function NthName(n: nat): (name: string)
    ensures |name| == n + 1
  {
    seq(n + 1, _ => 'r')
  }

  /** Process 1 creates ten rings: then no call changes anything any more, by RingCalls.FullForever. */
  method FillTable(free: set<int>) returns (rs: seq<int>, ghost ks: seq<K>, ghost cs: seq<Call>)
    requires |free| >= 17 * MAX_RINGBUFS
    ensures |cs| == MAX_RINGBUFS && Run(ks, cs, rs) && Booted(ks[0], free)
    ensures forall n | 0 <= n < MAX_RINGBUFS :: cs[n] == Create1(NthName(n)) && rs[n] == 0
    ensures Inv(ks[MAX_RINGBUFS]) && LiveCount(ks[MAX_RINGBUFS].slots) == MAX_RINGBUFS
  {
    hide Inv, Total, LiveCount, Step, HasGap, Harmless, Opens, Stacked, Rings, Created, Highest, Room, Named, Booted,
         Run;
    var k := Boot(free);
    assert 1 in k.tables && k.free == free by { BootedFacts(k.Now(), free); }
    ks, cs, rs := [k.Now()], [], [];
    NoRun(k.Now());
    var n := 0;
    ghost var names: seq<string>, counts: seq<int> := [], [];
    while n < MAX_RINGBUFS
      invariant 0 <= n <= MAX_RINGBUFS && |names| == |cs| == |rs| == n && |ks| == n + 1 && Run(ks, cs, rs)
      invariant Booted(ks[0], free) && ks[n] == k.Now() && k.Valid() && Rings(k.slots, names, counts)
      invariant 1 in k.tables && Stacked(k.tables[1], n) && |k.free| >= 17 * (MAX_RINGBUFS - n)
      invariant forall m | 0 <= m < n :: cs[m] == Create1(NthName(m)) && rs[m] == 0 && |names[m]| == m + 1
    {
      var r := CreateNext(k, NthName(n), names, counts, n);
      RunsOn(ks, cs, rs, k.Now(), Create1(NthName(n)), r);
      ks, cs, rs := ks + [k.Now()], cs + [Create1(NthName(n))], rs + [r];
      names, counts := names + [NthName(n)], counts + [1];
      n := n + 1;
    }
    RingsLive(k.slots, names, counts, "");
  }
}
