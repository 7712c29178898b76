/** The ringbuf system call: create_ringbuf, append_ringbuf and unmap_ringbuf. Page-table pages are always available. */
module RingKernel {
  import opened Params
  import opened RingPages
  import opened RingRegistry
  import opened RingCalls

  class Kernel {
    var slots: seq<Slot>
    var free: set<int>
    var tables: map<int, Table>
    ghost var users: seq<set<(int, int)>>

    ghost function Now(): K
      reads this
    {
      K(slots, free, tables, users)
    }

    ghost predicate Valid()
      reads this
    {
      Inv(Now())
    }

    /** Boot: no ring, the given pages free, the given processes with tables that map none of them. */
    constructor (free: set<int>, tables: map<int, Table>)
      requires forall p, v | p in tables && v in tables[p] :: tables[p][v] !in free
      ensures Valid() && Prefix(slots) && LiveCount(slots) == 0 && Total(Now()) == free
      ensures this.free == free && this.tables == tables && forall i | 0 <= i < MAX_RINGBUFS :: !Live(slots[i])
    {
      this.free, this.tables := free, tables;
      slots := seq(MAX_RINGBUFS, _ => Slot(0, "", [], 0));
      users := seq(MAX_RINGBUFS, _ => {});
      new;
      CountTail(slots, 0);
      NoneHeld(slots, |slots|);
    }

    /** get_ringbuf_index. */
    method Count() returns (n: nat)
      ensures n == LiveCount(slots)
    {
      n := 0;
      var i := 0;
      while i < |slots|
        invariant 0 <= i <= |slots| && n == LiveCount(slots[..i])
      {
        assert slots[..i + 1][..i] == slots[..i];
        if Live(slots[i]) { n := n + 1; }
        i := i + 1;
      }
      assert slots[..i] == slots;
    }

    /** The loop that looks a name up; |slots| when it is not there. */
    method Find(name: string) returns (i: nat)
      ensures i <= |slots| && (i < |slots| ==> slots[i].name == name)
      ensures forall j | 0 <= j < i :: slots[j].name != name
    {
      i := 0;
      while i < |slots|
        invariant i <= |slots| && forall j | 0 <= j < i :: slots[j].name != name
      {
        if slots[i].name == name { return; }
        i := i + 1;
      }
    }

    /** kalloc: some free page. */
    method Kalloc() returns (page: int)
      requires |free| > 0
      modifies this`free
      ensures page in old(free) && free == old(free) - {page} && |free| == |old(free)| - 1
    {
      NonEmpty(free);
      page :| page in free;
      free := free - {page};
    }

    /** mappages_to_proc and mappage_to_book for a new ring: 16 pages mapped twice and the book page. With fewer than
        17 free pages the failure path panics. */
    method MapNew(t0: Table, top: int) returns (ok: bool, t: Table, buf: seq<int>, book: int)
      requires (forall v | Placed(top, v) :: v !in t0) && HasGap(t0) && top - 2 * RINGBUF_SIZE > KERNPAGE
      modifies this`free
      ensures ok <==> |old(free)| > RINGBUF_SIZE
      ensures ok ==>
        |buf| == RINGBUF_SIZE && (forall i, j | 0 <= i < j < RINGBUF_SIZE :: buf[i] != buf[j]) && book !in buf
      ensures ok ==> var s := Slot(1, "", buf, book);
        Pages(s) <= old(free) && free == old(free) - Pages(s) && Added(t0, t, top, s)
    {
      hide Added, Building, Taken, Shows, HasGap;
      t, buf, book := t0, [], 0;
      BuildStart(t0, top, free);
      var i := 0;
      while i < 2 * RINGBUF_SIZE
        invariant 0 <= i <= 2 * RINGBUF_SIZE && |buf| == (if i < RINGBUF_SIZE then i else RINGBUF_SIZE)
        invariant Building(t0, t, top, buf, i) && Taken(old(free), free, buf)
      {
        assert Placed(top, top - i);
        if i < RINGBUF_SIZE {
          TakenSome(old(free), free, buf);
          if free == {} {
            Stranded(t0, t, top, buf, i);
            ghost var n;
            ok, n := UnmapBelow(t, top - i);
            return;
          }
          var page := Kalloc();
          BuildStep(t0, t, top, buf, i, page);
          buf := buf + [page];
          t := t[top - i := page];
        } else {
          BuildStep(t0, t, top, buf, i, 0);
          t := t[top - i := buf[i % RINGBUF_SIZE]];
        }
        i := i + 1;
      }
      TakenSome(old(free), free, buf);
      if free == {} {
        Stranded(t0, t, top, buf, i);
        ghost var n;
        ok, n := UnmapBelow(t, top - i);
        return;
      }
      BuildDone(t0, t, top, buf);
      book := Kalloc();
      TakenAll(old(free), free, buf, book);
      ShowsAdded(t0, t, top, Slot(1, "", buf, book));
      t := t[top - 2 * RINGBUF_SIZE := book];
      ok := true;
    }

    /** create_ringbuf: below the top of the highest run of 34 unmapped pages, at the index of the live count. */
    method Create(p: int, name: string, copied: bool) returns (r: int, top: int, ghost hi: int)
      requires Valid() && p in tables && LiveCount(slots) < MAX_RINGBUFS && HasGap(tables[p]) && !Named(slots, name)
      modifies this
      ensures OpenStep(old(Now()), Now(), p, name, copied, r, 0, hi) && (r == 0 ==> top == CreateTop(hi))
    {
      hide Inv, Added, Pages, LiveCount, HasGap, Highest, Created, Leaked, Named, FreeRun;
      SizesOk(Now());
      hi := 0;
      var ok, base := FindContiguousPages(tables[p], WANT);
      if !ok { return -1, 0, 0; }
      top := base - 1;
      hi := RunTop(tables[p], base);
      BaseTop(tables[p], base);
      assert Room(tables[p]);
      forall v | Placed(top, v) ensures v !in tables[p] { CreateInside(tables[p], base, v); }
      CreateInside(tables[p], base, top - 2 * RINGBUF_SIZE);
      var t, buf, book;
      ok, t, buf, book := MapNew(tables[p], top);
      if !ok { return -2, top, hi; }
      tables := tables[p := t];
      if !copied {
        NowLeaked(old(Now()), Now(), p, top, Slot(1, "", buf, book));
        return -1, top, hi;
      }
      var c := Count();
      slots := slots[c := Slot(1, name, buf, book)];
      users := users[c := {(p, top)}];
      Renamed(old(tables)[p], t, top, Slot(1, "", buf, book), name);
      NowCreated(old(Now()), Now(), p, top, name, slots[c]);
      return 0, top, hi;
    }

    /** append_ringbuf on the slot found: below the top of the highest run, skipping one page more. */
    method Append(p: int, i: nat, copied: bool) returns (r: int, top: int, ghost hi: int)
      requires Valid() && p in tables && i < MAX_RINGBUFS && Live(slots[i])
      modifies this
      ensures OpenStep(old(Now()), Now(), p, old(slots)[i].name, copied, r, i, hi) && (r == 0 ==> top == AppendTop(hi))
    {
      hide Inv, Added, Shows, Pages, FreeRun, Placed, Highest;
      SizesOk(Now());
      assert Named(slots, slots[i].name);
      hi := 0;
      var ok, base := FindContiguousPages(tables[p], WANT);
      if !ok { return -1, 0, 0; }
      top := base - 2;
      hi := RunTop(tables[p], base);
      BaseTop(tables[p], base);
      assert Room(tables[p]);
      AppendPanics(tables[p], base);
      var t;
      ok, t := MapBuffer(tables[p], top, slots[i].buf);
      ShowsBook(tables[p], t, top, slots[i]);
      if top - 2 * RINGBUF_SIZE in t { return -2, top, hi; }
      ShowsAdded(tables[p], t, top, slots[i]);
      t := t[top - 2 * RINGBUF_SIZE := slots[i].book];
      tables := tables[p := t];
      if !copied { return -1, top, hi; }
      slots := slots[i := slots[i].(refcount := slots[i].refcount + 1)];
      users := users[i := users[i] + {(p, top)}];
      AddedSame(old(tables)[p], t, top, old(slots)[i], slots[i]);
      return 0, top, hi;
    }

    /** unmap_ringbuf with the page of any page-aligned address. */
    method UnmapRing(p: int, name: string, top: int) returns (r: int, ghost i: nat)
      requires Valid() && p in tables
      modifies this
      ensures CloseStep(old(Now()), Now(), p, name, top, r, i)
    {
      hide Inv, Pages, Placed;
      SizesOk(Now());
      var i' := Find(name);
      i := i';
      if i' == |slots| { return -1, i; }
      assert Named(slots, name);
      var s := slots[i'].(refcount := slots[i'].refcount - 1);
      slots := slots[i' := s];
      if top !in tables[p] { return -1, i; }
      var ok, t := Unmap(tables[p], top);
      if !ok { return -2, i; }
      tables := tables[p := t];
      if s.refcount == 0 {
        SamePages(s, s.(name := ""));
        s := s.(name := "");
        free := free + Pages(s);
        slots := slots[i' := s];
      }
      users := users[i := users[i] - {(p, top)}];
      return 0, i;
    }

    /** It leaves the table in order exactly when it closes a window the process has open, or nothing. */
    method Close(p: int, name: string, top: int) returns (r: int, ghost i: nat)
      requires Valid() && p in tables
      modifies this
      ensures CloseStep(old(Now()), Now(), p, name, top, r, i)
      ensures name != "" && r != -2 ==> (Valid() <==> !Named(old(slots), name) || Opens(old(Now()), name, p, top))
    {
      hide Inv, Pages, Placed;
      r, i := UnmapRing(p, name, top);
      if name != "" && r != -2 { CloseHarm(old(Now()), Now(), p, name, top, r, i); }
    }

    /** The opening half of ringbuf: create the ring, or append to the one in slot `i`. */
    method Open(p: int, name: string, copied: bool) returns (r: int, top: int, ghost i: nat, ghost hi: int)
      requires Valid() && p in tables && name != "" && LiveCount(slots) < MAX_RINGBUFS && HasGap(tables[p])
      modifies this
      ensures OpenStep(old(Now()), Now(), p, name, copied, r, i, hi)
      ensures r == 0 ==> top == if Named(old(slots), name) then AppendTop(hi) else CreateTop(hi)
    {
      hide Inv, LiveCount, HasGap, AppendStep, CreateStep, Room;
      SizesOk(Now());
      i := 0;
      var j := Find(name);
      if j == |slots| {
        r, top, hi := Create(p, name, copied);
      } else {
        assert Named(slots, name);
        r, top, hi := Append(p, j, copied);
        i := j;
      }
    }

    /** ringbuf: every call is a step of RingCalls, and exactly the harmless ones leave the table in order with
        every page free or held by one ring. */
    method Ringbuf(c: Call) returns (r: int, top: int)
      requires Valid() && c.p in tables && c.name != "" && HasGap(tables[c.p])
      modifies this
      ensures Step(old(Now()), Now(), c, r)
      ensures r != -2 ==> (Valid() && Total(Now()) == old(Total(Now())) <==> old(Harmless(Now(), c)))
      ensures r == 0 && c.open ==> Opens(Now(), c.name, c.p, top)
    {
      hide Inv, Total, LiveCount, OpenStep, CloseStep, HasGap, Harmless, Opens;
      SizesOk(Now());
      top := 0;
      var count := Count();
      if count >= MAX_RINGBUFS || |c.name| > RINGBUF_NAME_LEN {
        r := -1;
      } else if c.open {
        ghost var i, hi;
        r, top, i, hi := Open(c.p, c.name, c.copied);
        if r == 0 { Opener(old(Now()), Now(), c.p, c.name, c.copied, i, hi, top); }
      } else {
        ghost var i;
        r, i := Close(c.p, c.name, c.addr);
      }
      if r != -2 { StepKeeps(old(Now()), Now(), c, r); }
    }
  }

  lemma NowLeaked(k: K, k': K, p: int, top: int, s: Slot)
    requires |s.buf| == RINGBUF_SIZE && s.book !in s.buf
    requires forall i, j | 0 <= i < j < RINGBUF_SIZE :: s.buf[i] != s.buf[j]
    requires Pages(s) <= k.free && p in k.tables && p in k'.tables && Added(k.tables[p], k'.tables[p], top, s)
    requires k' == k.(free := k.free - Pages(s), tables := k.tables[p := k'.tables[p]])
    ensures Leaked(k, k', p, top, s)
  {
  }

  lemma NowCreated(k: K, k': K, p: int, top: int, name: string, s: Slot)
    requires |s.buf| == RINGBUF_SIZE && s.book !in s.buf
    requires forall i, j | 0 <= i < j < RINGBUF_SIZE :: s.buf[i] != s.buf[j]
    requires Pages(s) <= k.free && p in k.tables && p in k'.tables && Added(k.tables[p], k'.tables[p], top, s)
    requires LiveCount(k.slots) < MAX_RINGBUFS == |k.slots| == |k.users| && s.name == name && s.refcount == 1
    requires k' == K(k.slots[LiveCount(k.slots) := s], k.free - Pages(s), k.tables[p := k'.tables[p]],
                     k.users[LiveCount(k.slots) := {(p, top)}])
    ensures Created(k, k', p, top, name)
  {
    hide Added, Pages, LiveCount;
  }

  /** After an open that succeeds the caller has its window. */
  lemma Opener(k: K, k': K, p: int, name: string, copied: bool, i: nat, hi: int, top: int)
    requires OpenStep(k, k', p, name, copied, 0, i, hi) && |k.slots| == |k.users| == MAX_RINGBUFS
    requires top == if Named(k.slots, name) then AppendTop(hi) else CreateTop(hi)
    ensures Opens(k', name, p, top)
  {
    hide Added, Pages, Highest, LiveCount;
    var c := if Named(k.slots, name) then i else LiveCount(k.slots);
    assert k'.slots[c].name == name && (p, top) in k'.users[c];
  }

  /** `buf` are different pages that were free and are no longer. */
  ghost predicate Taken(free0: set<int>, free: set<int>, buf: seq<int>) {
    && (forall a, b | 0 <= a < b < |buf| :: buf[a] != buf[b]) && (forall a | 0 <= a < |buf| :: buf[a] in free0)
    && free == free0 - (set p | p in buf) && |free| + |buf| == |free0|
  }

  lemma BuildStart(t0: Table, top: int, free: set<int>)
    ensures Building(t0, t0, top, [], 0) && Taken(free, free, [])
  {
  }

  /** The next page kalloc hands out is another one. */
  lemma TakenSome(free0: set<int>, free: set<int>, buf: seq<int>)
    requires Taken(free0, free, buf)
    ensures |free| + |buf| == |free0|
    ensures forall page | page in free :: Taken(free0, free - {page}, buf + [page]) && page in free0 && page !in buf
  {
    forall page | page in free ensures Taken(free0, free - {page}, buf + [page]) && page in free0 && page !in buf {
      var buf' := buf + [page];
      assert (set p | p in buf') == (set p | p in buf) + {page};
    }
  }

  lemma TakenAll(free0: set<int>, free: set<int>, buf: seq<int>, book: int)
    requires Taken(free0, free, buf + [book]) && |buf| == RINGBUF_SIZE
    ensures (forall i, j | 0 <= i < j < RINGBUF_SIZE :: buf[i] != buf[j]) && book !in buf
    ensures var s := Slot(1, "", buf, book); Pages(s) <= free0 && free == free0 - Pages(s)
  {
    var all := buf + [book];
    assert forall i | 0 <= i < RINGBUF_SIZE :: all[i] == buf[i];
    assert (set p | p in all) == (set p | p in buf) + {book};
    assert all[RINGBUF_SIZE] == book;
  }

  lemma NonEmpty(s: set<int>)
    requires |s| > 0
    ensures exists x :: x in s
  {
    assert (forall x :: x !in s) ==> s == {};
  }

  /** The two uvmunmap calls: 32 buffer pages and the book page; false is their panic on a page that is not mapped. */
  method Unmap(t0: Table, top: int) returns (ok: bool, t: Table)
    ensures ok <==> forall v | Placed(top, v) :: v in t0
    ensures ok ==> forall v :: v in t <==> v in t0 && !Placed(top, v)
    ensures ok ==> forall v | v in t :: t[v] == t0[v]
  {
    t := t0;
    var v := top - (2 * RINGBUF_SIZE - 1);
    while v <= top
      invariant top - (2 * RINGBUF_SIZE - 1) <= v <= top + 1
      invariant forall x :: x in t <==> x in t0 && !(top - 2 * RINGBUF_SIZE < x < v)
      invariant forall x | top - 2 * RINGBUF_SIZE < x < v :: x in t0
      invariant forall x | x in t :: t[x] == t0[x]
    {
      if v !in t {
        assert Placed(top, v);
        return false, t;
      }
      t := t - {v};
      v := v + 1;
    }
    assert Placed(top, top - 2 * RINGBUF_SIZE);
    if top - 2 * RINGBUF_SIZE !in t { return false, t; }
    t := t - {top - 2 * RINGBUF_SIZE};
    return true, t;
  }

  lemma SizesOk(k: K)
    requires Inv(k)
    ensures |k.slots| == |k.users| == MAX_RINGBUFS
    ensures forall i | 0 <= i < MAX_RINGBUFS && Live(k.slots[i]) :: |k.slots[i].buf| == RINGBUF_SIZE
    ensures forall i | 0 <= i < MAX_RINGBUFS && !Live(k.slots[i]) :: k.users[i] == {}
  {
  }

  /** The book page below the 32 buffer pages completes a window. */
  lemma ShowsAdded(t0: Table, t: Table, top: int, s: Slot)
    requires |s.buf| == RINGBUF_SIZE && Shows(t0, t, top, s.buf, 2 * RINGBUF_SIZE)
    requires forall v | Placed(top, v) :: v !in t0
    ensures Added(t0, t[top - 2 * RINGBUF_SIZE := s.book], top, s)
  {
    var book := top - 2 * RINGBUF_SIZE;
    assert Placed(top, book);
    forall v | Placed(top, v) && v != book ensures top - 2 * RINGBUF_SIZE < v <= top { }
  }

  lemma ShowsBook(t0: Table, t: Table, top: int, s: Slot)
    requires |s.buf| == RINGBUF_SIZE && Shows(t0, t, top, s.buf, 2 * RINGBUF_SIZE)
    ensures top - 2 * RINGBUF_SIZE in t <==> top - 2 * RINGBUF_SIZE in t0
  {
  }

  lemma Renamed(t0: Table, t: Table, top: int, s: Slot, name: string)
    requires |s.buf| == RINGBUF_SIZE && Added(t0, t, top, s)
    ensures Added(t0, t, top, s.(name := name)) && Pages(s.(name := name)) == Pages(s)
  {
  }

  lemma {:induction false} NoneHeld(slots: seq<Slot>, n: nat)
    requires n <= |slots| && forall i | 0 <= i < |slots| :: !Live(slots[i])
    ensures Held(slots, n) == {}
  {
    if n > 0 { NoneHeld(slots, n - 1); }
  }

  /** append's 32 buffer pages are unmapped; its book page is mapped already exactly when nothing is mapped
      in the top 34 pages and the page below them is. */
  lemma AppendPanics(t: Table, base: int)
    requires FreeRun(t, RunTop(t, base), WANT) && base <= TOP && (base !in t ==> base == TOP)
    requires forall hi | RunTop(t, base) < hi <= TOP :: !FreeRun(t, hi, WANT)
    ensures forall v | base - 2 - 2 * RINGBUF_SIZE < v <= base - 2 :: v !in t
    ensures base - 2 - 2 * RINGBUF_SIZE in t <==> FreeRun(t, TOP, WANT) && TOP - WANT in t
    ensures base - 2 - 2 * RINGBUF_SIZE !in t ==> forall v | Placed(base - 2, v) :: v !in t
  {
    AppendInside(t, base);
  }
}
