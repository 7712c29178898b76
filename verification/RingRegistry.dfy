/** The kernel's table of named rings: who has which ring mapped, and where its 17 pages are. */
module RingRegistry {
  import opened Params
  import opened RingPages

  const MAX_RINGBUFS: int := 10
  const RINGBUF_NAME_LEN: int := 16

  datatype Slot = Slot(refcount: int, name: string, buf: seq<int>, book: int)

  predicate Live(s: Slot) { s.name != "" }

  function Pages(s: Slot): set<int> { (set p | p in s.buf) + {s.book} }

  /** The state: the ring table, the free pages, one page table for each process, and (for the proof)
      the pairs (process, top page) that have each ring open. */
  datatype K = K(slots: seq<Slot>, free: set<int>, tables: map<int, Table>, users: seq<set<(int, int)>>)

  ghost predicate SlotOk(s: Slot, u: set<(int, int)>) {
    && |s.buf| == RINGBUF_SIZE && (forall i, j | 0 <= i < j < RINGBUF_SIZE :: s.buf[i] != s.buf[j]) && s.book !in s.buf
    && s.refcount == |u| > 0
  }

  /** The 33 pages from `top` down show the ring. */
  ghost predicate WindowOk(t: Table, top: int, s: Slot)
    requires |s.buf| == RINGBUF_SIZE
  {
    && Mirrors(t, top, s.buf, 2 * RINGBUF_SIZE)
    && top - 2 * RINGBUF_SIZE in t && t[top - 2 * RINGBUF_SIZE] == s.book
  }

  /** Page v of process p lies in one of these windows. */
  ghost predicate Used(u: set<(int, int)>, p: int, v: int) { exists top :: (p, top) in u && Placed(top, v) }

  /** Two windows of one process do not overlap. */
  ghost predicate Apart(u: set<(int, int)>) {
    forall p, a, b | (p, a) in u && (p, b) in u :: a == b || a < b - 2 * RINGBUF_SIZE || b < a - 2 * RINGBUF_SIZE
  }

  ghost predicate SlotsOk(k: K) {
    && |k.slots| == |k.users| == MAX_RINGBUFS
    && (forall i | 0 <= i < MAX_RINGBUFS ::
          if Live(k.slots[i]) then SlotOk(k.slots[i], k.users[i]) && Apart(k.users[i]) else k.users[i] == {})
    && (forall i, j | 0 <= i < j < MAX_RINGBUFS && Live(k.slots[i]) && Live(k.slots[j]) ::
          k.slots[i].name != k.slots[j].name && Pages(k.slots[i]) !! Pages(k.slots[j]))
    && (forall i | 0 <= i < MAX_RINGBUFS && Live(k.slots[i]) :: Pages(k.slots[i]) !! k.free)
  }

  /** Every open window shows its ring. */
  ghost predicate WindowsOk(k: K)
    requires SlotsOk(k)
  {
    forall i, p, top | 0 <= i < MAX_RINGBUFS && (p, top) in k.users[i] ::
      p in k.tables && WindowOk(k.tables[p], top, k.slots[i])
  }

  /** No table maps a free page, and a ring's pages are mapped in its open windows only. */
  ghost predicate TablesOk(k: K)
    requires SlotsOk(k)
  {
    && (forall p, v | p in k.tables && v in k.tables[p] :: k.tables[p][v] !in k.free)
    && (forall p, v, i | p in k.tables && v in k.tables[p] && 0 <= i < MAX_RINGBUFS && Live(k.slots[i])
                         && k.tables[p][v] in Pages(k.slots[i]) ::
          Used(k.users[i], p, v))
  }

  ghost predicate Inv(k: K) { SlotsOk(k) && WindowsOk(k) && TablesOk(k) }

  /** The pages of the first n slots' live rings. */
  ghost function Held(slots: seq<Slot>, n: nat): set<int>
    requires n <= |slots|
  {
    if n == 0 then {} else Held(slots, n - 1) + if Live(slots[n - 1]) then Pages(slots[n - 1]) else {}
  }

  /** All pages: free or held by a ring. */
  ghost function Total(k: K): set<int> { k.free + Held(k.slots, |k.slots|) }

  // ---- slots ----

  function LiveCount(slots: seq<Slot>): nat {
    if slots == [] then 0 else LiveCount(slots[..|slots| - 1]) + if Live(slots[|slots| - 1]) then 1 else 0
  }

  /** The live rings are the first ones. */
  ghost predicate Prefix(slots: seq<Slot>) { forall i, j | 0 <= i < j < |slots| && Live(slots[j]) :: Live(slots[i]) }

  lemma {:induction false} CountBound(slots: seq<Slot>)
    ensures LiveCount(slots) <= |slots|
    ensures LiveCount(slots) == |slots| <==> forall i | 0 <= i < |slots| :: Live(slots[i])
  {
    if slots != [] {
      var s := slots[..|slots| - 1];
      CountBound(s);
      assert forall i | 0 <= i < |s| :: s[i] == slots[i];
    }
  }

  /** While live slots form a prefix, the count of live slots is the index of the first free one. */
  lemma {:induction false} PrefixCount(slots: seq<Slot>, i: nat)
    requires Prefix(slots) && i < |slots|
    ensures Live(slots[i]) <==> i < LiveCount(slots)
  {
    var n := |slots| - 1;
    var s := slots[..n];
    assert Prefix(s) by { assert forall j | 0 <= j < |s| :: s[j] == slots[j]; }
    CountBound(s);
    if Live(slots[n]) {
      assert forall j | 0 <= j < n :: Live(s[j]) by { assert forall j | 0 <= j < n :: s[j] == slots[j]; }
    }
    if i < n {
      PrefixCount(s, i);
    } else {
      CountBound(slots);
    }
  }

  /** create_ringbuf stores at index LiveCount. It overwrites a live ring exactly when that slot is live; a prefix
      rules that out. */
  lemma CreateSlotFree(slots: seq<Slot>)
    requires Prefix(slots) && LiveCount(slots) < |slots|
    ensures !Live(slots[LiveCount(slots)])
  {
    PrefixCount(slots, LiveCount(slots));
  }

  lemma {:induction false} CountTail(slots: seq<Slot>, n: nat)
    requires n <= |slots| && forall i | n <= i < |slots| :: !Live(slots[i])
    ensures LiveCount(slots) == LiveCount(slots[..n])
  {
    if n == |slots| {
      assert slots[..n] == slots;
    } else {
      var s := slots[..|slots| - 1];
      assert s[..n] == slots[..n];
      CountTail(s, n);
    }
  }

  lemma {:induction false} CountUpdate(slots: seq<Slot>, i: nat, s: Slot)
    requires i < |slots|
    ensures LiveCount(slots[i := s]) == LiveCount(slots) + (if Live(s) then 1 else 0) - if Live(slots[i]) then 1 else 0
  {
    var n := |slots| - 1;
    if i == n {
      assert slots[i := s][..n] == slots[..n];
    } else {
      assert slots[i := s][..n] == slots[..n][i := s];
      CountUpdate(slots[..n], i, s);
    }
  }

  /** When a ring is given up while live slots form a prefix, the next create stores to a live slot
      if and only if the ring was not the highest. */
  lemma GivenUp(slots: seq<Slot>, c: nat, dead: Slot)
    requires Prefix(slots) && c < LiveCount(slots) && !Live(dead)
    ensures c < |slots| && LiveCount(slots[c := dead]) == LiveCount(slots) - 1 < |slots|
    ensures var after := slots[c := dead];
      && (Live(after[LiveCount(after)]) <==> c != LiveCount(slots) - 1)
      && (Prefix(after) <==> c == LiveCount(slots) - 1)
  {
    CountBound(slots);
    CountUpdate(slots, c, dead);
    var after, n := slots[c := dead], LiveCount(slots);
    forall j | 0 <= j < |slots| ensures Live(slots[j]) <==> j < n { PrefixCount(slots, j); }
    assert c != n - 1 ==> Live(after[n - 1]) && !Live(after[c]);
  }

  lemma {:induction false} HeldUpdate(slots: seq<Slot>, n: nat, i: nat, s: Slot)
    requires n <= |slots| && i < |slots|
    requires forall j | 0 <= j < |slots| && j != i && Live(slots[j]) && Live(slots[i]) ::
      Pages(slots[j]) !! Pages(slots[i])
    ensures Held(slots[i := s], n) == if i >= n then Held(slots, n)
      else Held(slots, n) - (if Live(slots[i]) then Pages(slots[i]) else {}) + if Live(s) then Pages(s) else {}
    ensures i >= n && Live(slots[i]) ==> Held(slots, n) !! Pages(slots[i])
  {
    if n > 0 { HeldUpdate(slots, n - 1, i, s); }
  }

  // ---- opening and closing, on values ----

  /** Page table t is t0 with a window on the ring added in unmapped pages. */
  ghost predicate Added(t0: Table, t: Table, top: int, s: Slot)
    requires |s.buf| == RINGBUF_SIZE
  {
    && WindowOk(t, top, s)
    && (forall v | Placed(top, v) :: v !in t0)
    && (forall v | v in t && !Placed(top, v) :: v in t0 && t0[v] == t[v])
    && (forall v | v in t0 :: v in t && t[v] == t0[v])
  }

  /** What a window shows are the ring's pages. */
  lemma WindowPages(t: Table, top: int, s: Slot, v: int)
    requires |s.buf| == RINGBUF_SIZE && WindowOk(t, top, s) && Placed(top, v)
    ensures v in t && t[v] in Pages(s)
  {
  }

  /** Opening: slot i becomes s with one more user. */
  ghost predicate Opened(k: K, k': K, i: nat, p: int, top: int, s: Slot) {
    && i < MAX_RINGBUFS == |k.slots| == |k.users| && p in k.tables && Live(s) && |s.buf| == RINGBUF_SIZE
    && k'.slots == k.slots[i := s] && k'.users == k.users[i := k.users[i] + {(p, top)}]
    && p in k'.tables && k'.tables == k.tables[p := k'.tables[p]] && Added(k.tables[p], k'.tables[p], top, s)
  }

  /** create_ringbuf: a ring of 17 pages that were free, stored at the index of the live count. */
  ghost predicate Created(k: K, k': K, p: int, top: int, name: string) {
    var c := LiveCount(k.slots);
    && c < MAX_RINGBUFS == |k.slots| == |k.users| == |k'.slots| && k'.slots == k.slots[c := k'.slots[c]]
    && k'.slots[c].name == name && k'.slots[c].refcount == 1 && |k'.slots[c].buf| == RINGBUF_SIZE
    && k'.slots[c].book !in k'.slots[c].buf
    && (forall i, j | 0 <= i < j < RINGBUF_SIZE :: k'.slots[c].buf[i] != k'.slots[c].buf[j])
    && Pages(k'.slots[c]) <= k.free && k'.free == k.free - Pages(k'.slots[c])
    && p in k.tables && p in k'.tables && k'.tables == k.tables[p := k'.tables[p]]
    && Added(k.tables[p], k'.tables[p], top, k'.slots[c]) && k'.users == k.users[c := {(p, top)}]
  }

  /** append_ringbuf: one more user of the ring in slot i. */
  ghost predicate Appended(k: K, k': K, i: nat, p: int, top: int) {
    && i < |k.slots| && k'.free == k.free
    && Opened(k, k', i, p, top, k.slots[i].(refcount := k.slots[i].refcount + 1))
  }

  /** append_ringbuf whose copyout fails: the ring is mapped for a process that does not count as its user. */
  ghost predicate Stray(k: K, k': K, i: nat, p: int, top: int) {
    && i < |k.slots| && |k.slots[i].buf| == RINGBUF_SIZE && p in k.tables && p in k'.tables
    && k' == k.(tables := k.tables[p := k'.tables[p]]) && Added(k.tables[p], k'.tables[p], top, k.slots[i])
  }

  /** create_ringbuf whose copyout fails: 17 pages that were free are mapped and belong to no ring. */
  ghost predicate Leaked(k: K, k': K, p: int, top: int, s: Slot) {
    && |s.buf| == RINGBUF_SIZE && s.book !in s.buf && (forall i, j | 0 <= i < j < RINGBUF_SIZE :: s.buf[i] != s.buf[j])
    && Pages(s) <= k.free && p in k.tables && p in k'.tables && Added(k.tables[p], k'.tables[p], top, s)
    && k' == k.(free := k.free - Pages(s), tables := k.tables[p := k'.tables[p]])
  }

  ghost predicate Named(slots: seq<Slot>, name: string) { exists i :: 0 <= i < |slots| && slots[i].name == name }

  /** A new user of a window in unmapped pages is new, and keeps the windows apart. */
  lemma NewUser(k: K, k': K, i: nat, p: int, top: int, s: Slot)
    requires Inv(k) && Opened(k, k', i, p, top, s) && Live(k.slots[i])
    ensures (p, top) !in k.users[i] && Apart(k'.users[i]) && |k'.users[i]| == |k.users[i]| + 1
  {
    hide TablesOk, Pages;
    forall q | (p, q) in k.users[i] ensures top < q - 2 * RINGBUF_SIZE || q < top - 2 * RINGBUF_SIZE {
      var v := if q < top then q else top;
      assert WindowOk(k.tables[p], q, k.slots[i]);
      assert Placed(q, v) ==> v in k.tables[p];
      assert Placed(top, v) ==> v !in k.tables[p];
    }
  }

  /** The slot conditions depend on one changed slot only. */
  lemma SlotChanged(k: K, k': K, i: nat, s: Slot, u: set<(int, int)>)
    requires SlotsOk(k) && i < MAX_RINGBUFS && k'.slots == k.slots[i := s] && k'.users == k.users[i := u]
    requires if Live(s) then SlotOk(s, u) && Apart(u) else u == {}
    requires Live(s) ==> forall j | 0 <= j < MAX_RINGBUFS && j != i && Live(k.slots[j]) ::
      s.name != k.slots[j].name && Pages(s) !! Pages(k.slots[j])
    requires forall j | 0 <= j < MAX_RINGBUFS && j != i && Live(k.slots[j]) :: Pages(k.slots[j]) !! k'.free
    requires Live(s) ==> Pages(s) !! k'.free
    ensures SlotsOk(k')
  {
    hide SlotOk, Apart, Pages;
  }

  lemma AppendSlots(k: K, k': K, i: nat, p: int, top: int)
    requires Inv(k) && i < MAX_RINGBUFS && Live(k.slots[i])
    requires Opened(k, k', i, p, top, k.slots[i].(refcount := k.slots[i].refcount + 1)) && k'.free == k.free
    ensures SlotsOk(k')
  {
    var s := k.slots[i].(refcount := k.slots[i].refcount + 1);
    NewUser(k, k', i, p, top, s);
    hide WindowsOk, TablesOk, Added, Apart;
    assert Pages(s) == Pages(k.slots[i]);
    SlotChanged(k, k', i, s, k'.users[i]);
  }

  lemma AppendInv(k: K, k': K, i: nat, p: int, top: int)
    requires Inv(k) && i < MAX_RINGBUFS && Live(k.slots[i])
    requires Opened(k, k', i, p, top, k.slots[i].(refcount := k.slots[i].refcount + 1)) && k'.free == k.free
    ensures Inv(k') && Total(k') == Total(k)
  {
    hide WindowsOk, TablesOk, Added, Apart, SlotOk, Pages;
    var s := k.slots[i].(refcount := k.slots[i].refcount + 1);
    AppendSlots(k, k', i, p, top);
    OpenWindows(k, k', i, p, top, s);
    SamePages(k.slots[i], s);
    OpenTables(k, k', i, p, top, s);
    TotalKept(k, k', i, s);
  }

  lemma SamePages(s: Slot, s': Slot)
    requires s'.buf == s.buf && s'.book == s.book
    ensures Pages(s') == Pages(s)
  {
  }

  lemma TotalKept(k: K, k': K, i: nat, s: Slot)
    requires SlotsOk(k) && i < MAX_RINGBUFS && k'.slots == k.slots[i := s]
    requires (if Live(k.slots[i]) then Pages(k.slots[i]) else {}) + k.free ==
      (if Live(s) then Pages(s) else {}) + k'.free
    ensures Total(k') == Total(k)
  {
    hide SlotOk, Apart, Pages;
    HeldUpdate(k.slots, MAX_RINGBUFS, i, s);
    if Live(k.slots[i]) { HeldIn(k.slots, MAX_RINGBUFS, i); }
  }

  lemma {:induction false} HeldIn(slots: seq<Slot>, n: nat, i: nat)
    requires i < n <= |slots| && Live(slots[i])
    ensures Pages(slots[i]) <= Held(slots, n)
  {
    if i < n - 1 { HeldIn(slots, n - 1, i); }
  }

  lemma OpenWindow(k: K, k': K, i: nat, p: int, top: int, s: Slot, j: nat, q: int, a: int)
    requires Inv(k) && SlotsOk(k') && Opened(k, k', i, p, top, s) && j < MAX_RINGBUFS && (q, a) in k'.users[j]
    requires Live(k.slots[i]) ==> s.buf == k.slots[i].buf && s.book == k.slots[i].book
    ensures q in k'.tables && |k'.slots[j].buf| == RINGBUF_SIZE && WindowOk(k'.tables[q], a, k'.slots[j])
  {
    hide TablesOk, Pages, Apart, WindowOk;
    if (q, a) in k.users[j] {
      assert q in k.tables && WindowOk(k.tables[q], a, k.slots[j]);
      hide WindowsOk, SlotsOk;
      if q == p { WindowGrown(k.tables[p], k'.tables[p], a, top, k.slots[j], s); }
      WindowSame(k'.tables[q], a, k.slots[j], k'.slots[j]);
    }
  }

  /** A window survives the addition of another. */
  lemma WindowGrown(t: Table, t': Table, a: int, top: int, w: Slot, s: Slot)
    requires |w.buf| == |s.buf| == RINGBUF_SIZE && WindowOk(t, a, w) && Added(t, t', top, s)
    ensures WindowOk(t', a, w)
  {
    forall v | a - 2 * RINGBUF_SIZE < v <= a ensures v in t' && t'[v] == w.buf[(a - v) % RINGBUF_SIZE] {
      assert v in t;
    }
  }

  lemma WindowSame(t: Table, a: int, w: Slot, w': Slot)
    requires |w.buf| == RINGBUF_SIZE && WindowOk(t, a, w) && w'.buf == w.buf && w'.book == w.book
    ensures WindowOk(t, a, w')
  {
  }

  lemma OpenWindows(k: K, k': K, i: nat, p: int, top: int, s: Slot)
    requires Inv(k) && SlotsOk(k') && Opened(k, k', i, p, top, s)
    requires Live(k.slots[i]) ==> s.buf == k.slots[i].buf && s.book == k.slots[i].book
    ensures WindowsOk(k')
  {
    hide TablesOk, Pages, Apart, Opened, WindowOk;
    forall j, q, a | 0 <= j < MAX_RINGBUFS && (q, a) in k'.users[j]
      ensures q in k'.tables && WindowOk(k'.tables[q], a, k'.slots[j])
    {
      OpenWindow(k, k', i, p, top, s, j, q, a);
    }
  }

  /** A ring's page that is mapped after an open is in one of its windows. */
  lemma OpenPage(k: K, k': K, i: nat, p: int, top: int, s: Slot, q: int, v: int, j: nat)
    requires Inv(k) && SlotsOk(k') && Opened(k, k', i, p, top, s) && j < MAX_RINGBUFS
    requires Live(k.slots[i]) ==> Pages(s) == Pages(k.slots[i])
    requires !Live(k.slots[i]) ==> Pages(s) <= k.free
    requires q in k'.tables && v in k'.tables[q] && Live(k'.slots[j]) && k'.tables[q][v] in Pages(k'.slots[j])
    ensures Used(k'.users[j], q, v)
  {
    hide WindowsOk, SlotOk, Apart, WindowOk;
    if q == p && Placed(top, v) {
      WindowPages(k'.tables[p], top, s, v);
      assert j == i;
      assert (p, top) in k'.users[i];
    } else {
      assert v in k.tables[q] && k'.tables[q][v] == k.tables[q][v];
      assert Used(k.users[j], q, v);
      var a :| (q, a) in k.users[j] && Placed(a, v);
      assert (q, a) in k'.users[j];
    }
  }

  lemma OpenTables(k: K, k': K, i: nat, p: int, top: int, s: Slot)
    requires Inv(k) && SlotsOk(k') && Opened(k, k', i, p, top, s) && k'.free <= k.free && Pages(s) !! k'.free
    requires Live(k.slots[i]) ==> Pages(s) == Pages(k.slots[i])
    requires !Live(k.slots[i]) ==> Pages(s) <= k.free
    ensures TablesOk(k')
  {
    hide WindowsOk, SlotOk, Apart, Used, WindowOk, Pages;
    forall q, v | q in k'.tables && v in k'.tables[q]
      ensures k'.tables[q][v] !in k'.free
      ensures forall j | 0 <= j < MAX_RINGBUFS && Live(k'.slots[j]) && k'.tables[q][v] in Pages(k'.slots[j]) ::
        Used(k'.users[j], q, v)
    {
      if q == p && Placed(top, v) {
        WindowPages(k'.tables[p], top, s, v);
      } else {
        assert v in k.tables[q] && k'.tables[q][v] == k.tables[q][v];
      }
      forall j | 0 <= j < MAX_RINGBUFS && Live(k'.slots[j]) && k'.tables[q][v] in Pages(k'.slots[j])
        ensures Used(k'.users[j], q, v)
      {
        OpenPage(k, k', i, p, top, s, q, v, j);
      }
    }
  }

  /** Creating in a free slot with 17 free pages keeps everything and conserves the pages. */
  lemma CreateInv(k: K, k': K, i: nat, p: int, top: int, s: Slot)
    requires Inv(k) && Opened(k, k', i, p, top, s) && !Live(k.slots[i])
    requires forall j | 0 <= j < MAX_RINGBUFS && Live(k.slots[j]) :: k.slots[j].name != s.name
    requires Pages(s) <= k.free && k'.free == k.free - Pages(s) && s.refcount == 1 && s.book !in s.buf
    requires forall a, b | 0 <= a < b < RINGBUF_SIZE :: s.buf[a] != s.buf[b]
    ensures Inv(k') && Total(k') == Total(k)
  {
    assert k'.users[i] == {(p, top)};
    CreateSlots(k, k', i, p, top, s);
    hide WindowsOk, TablesOk, Added, Apart, SlotOk, Pages;
    OpenWindows(k, k', i, p, top, s);
    OpenTables(k, k', i, p, top, s);
    assert k.free == Pages(s) + k'.free;
    TotalKept(k, k', i, s);
  }

  lemma CreateSlots(k: K, k': K, i: nat, p: int, top: int, s: Slot)
    requires Inv(k) && Opened(k, k', i, p, top, s) && !Live(k.slots[i]) && k'.users[i] == {(p, top)}
    requires forall j | 0 <= j < MAX_RINGBUFS && Live(k.slots[j]) :: k.slots[j].name != s.name
    requires Pages(s) <= k.free && k'.free == k.free - Pages(s) && s.refcount == 1 && s.book !in s.buf
    requires forall a, b | 0 <= a < b < RINGBUF_SIZE :: s.buf[a] != s.buf[b]
    ensures SlotsOk(k')
  {
    hide WindowsOk, TablesOk, Added, Pages;
    SlotChanged(k, k', i, s, k'.users[i]);
  }

  /** What closing ring i at any mapped address does: the 33 pages from `top` down go, the count goes down, and at 0 the
      ring's name and its 17 pages go. */
  ghost predicate Unmaps(k: K, k': K, i: nat, p: int, top: int) {
    && i < MAX_RINGBUFS == |k.slots| == |k.users| && k'.users == k.users[i := k.users[i] - {(p, top)}]
    && p in k.tables && p in k'.tables && k'.tables == k.tables[p := k'.tables[p]]
    && (forall v :: v in k'.tables[p] <==> v in k.tables[p] && !Placed(top, v))
    && (forall v | v in k'.tables[p] :: k'.tables[p][v] == k.tables[p][v])
    && var s := k.slots[i].(refcount := k.slots[i].refcount - 1);
       if s.refcount == 0 then k'.slots == k.slots[i := s.(name := "")] && k'.free == k.free + Pages(s)
       else k'.slots == k.slots[i := s] && k'.free == k.free
  }

  /** Closing a window that is open. */
  ghost predicate Closed(k: K, k': K, i: nat, p: int, top: int) {
    i < |k.slots| == |k.users| && Live(k.slots[i]) && (p, top) in k.users[i] && Unmaps(k, k', i, p, top)
  }

  lemma CloseSlots(k: K, k': K, i: nat, p: int, top: int)
    requires Inv(k) && i < MAX_RINGBUFS && Closed(k, k', i, p, top)
    ensures SlotsOk(k') && (!Live(k'.slots[i]) <==> k.users[i] == {(p, top)})
  {
    hide WindowsOk, TablesOk;
    var s := k'.slots[i];
    assert Pages(s) == Pages(k.slots[i]);
    assert |k'.users[i]| == |k.users[i]| - 1;
    LastUser(k.users[i], (p, top));
    SlotChanged(k, k', i, s, k'.users[i]);
  }

  lemma CloseInv(k: K, k': K, i: nat, p: int, top: int)
    requires Inv(k) && i < MAX_RINGBUFS && Closed(k, k', i, p, top)
    ensures Inv(k') && Total(k') == Total(k)
    ensures !Live(k'.slots[i]) <==> k.users[i] == {(p, top)}
    ensures Pages(k.slots[i]) !! k.free
  {
    hide WindowsOk, TablesOk, Apart, SlotOk, Pages;
    CloseSlots(k, k', i, p, top);
    CloseWindows(k, k', i, p, top);
    CloseTables(k, k', i, p, top);
    SamePages(k.slots[i], k'.slots[i]);
    SamePages(k.slots[i], k.slots[i].(refcount := k.slots[i].refcount - 1));
    TotalKept(k, k', i, k'.slots[i]);
  }

  lemma LastUser(u: set<(int, int)>, x: (int, int))
    requires x in u
    ensures |u| == 1 <==> u == {x}
  {
    if |u - {x}| == 0 { assert u == {x}; }
  }

  /** No page of a process is in two open windows. */
  lemma OnlyWindow(k: K, i: nat, j: nat, p: int, a: int, b: int, v: int)
    requires Inv(k) && i < MAX_RINGBUFS && j < MAX_RINGBUFS && (p, a) in k.users[i] && (p, b) in k.users[j]
    requires Placed(a, v) && Placed(b, v)
    ensures i == j && a == b
  {
    hide TablesOk, Pages;
    assert WindowOk(k.tables[p], a, k.slots[i]) && WindowOk(k.tables[p], b, k.slots[j]);
    hide WindowsOk, WindowOk, SlotOk;
    WindowPages(k.tables[p], a, k.slots[i], v);
    WindowPages(k.tables[p], b, k.slots[j], v);
    var x := k.tables[p][v];
    assert x in Pages(k.slots[i]) && x in Pages(k.slots[j]);
  }

  lemma CloseWindow(k: K, k': K, i: nat, p: int, top: int, j: nat, q: int, a: int)
    requires Inv(k) && i < MAX_RINGBUFS && Closed(k, k', i, p, top) && SlotsOk(k') && j < MAX_RINGBUFS
    requires (q, a) in k'.users[j]
    ensures q in k'.tables && |k'.slots[j].buf| == RINGBUF_SIZE && WindowOk(k'.tables[q], a, k'.slots[j])
  {
    hide TablesOk, Pages, Apart;
    assert (q, a) in k.users[j] && WindowOk(k.tables[q], a, k.slots[j]);
    if q == p {
      forall v | Placed(a, v) ensures !Placed(top, v) {
        if Placed(top, v) { OnlyWindow(k, i, j, p, top, a, v); }
      }
      WindowKept(k.tables[p], k'.tables[p], a, k.slots[j]);
    }
  }

  lemma CloseWindows(k: K, k': K, i: nat, p: int, top: int)
    requires Inv(k) && i < MAX_RINGBUFS && Closed(k, k', i, p, top) && SlotsOk(k')
    ensures WindowsOk(k')
  {
    hide TablesOk, Pages, Apart, Closed;
    forall j, q, a | 0 <= j < MAX_RINGBUFS && (q, a) in k'.users[j]
      ensures q in k'.tables && WindowOk(k'.tables[q], a, k'.slots[j])
    {
      CloseWindow(k, k', i, p, top, j, q, a);
    }
  }

  lemma WindowKept(t: Table, t': Table, top: int, s: Slot)
    requires |s.buf| == RINGBUF_SIZE && WindowOk(t, top, s)
    requires forall v | Placed(top, v) && v in t :: v in t' && t'[v] == t[v]
    ensures WindowOk(t', top, s)
  {
    forall v | top - 2 * RINGBUF_SIZE < v <= top ensures v in t' && t'[v] == s.buf[(top - v) % RINGBUF_SIZE] {
      assert v in t && Placed(top, v);
    }
    assert Placed(top, top - 2 * RINGBUF_SIZE);
  }

  /** A page that stays mapped after a close: it is not freed by it, and if it is a ring's page it is in another
      open window. */
  lemma ClosePage(k: K, k': K, i: nat, p: int, top: int, q: int, v: int, j: nat)
    requires Inv(k) && i < MAX_RINGBUFS && j < MAX_RINGBUFS && Closed(k, k', i, p, top) && SlotsOk(k')
    requires q in k'.tables && v in k'.tables[q] && Live(k.slots[j]) && k'.tables[q][v] in Pages(k.slots[j])
    ensures Used(k'.users[j], q, v) && Live(k'.slots[j])
  {
    hide WindowsOk, WindowOk, SlotOk, Apart;
    assert v in k.tables[q] && k'.tables[q][v] == k.tables[q][v];
    assert Used(k.users[j], q, v);
    var a :| (q, a) in k.users[j] && Placed(a, v);
    assert (q, a) in k'.users[j];
  }

  lemma CloseTables(k: K, k': K, i: nat, p: int, top: int)
    requires Inv(k) && i < MAX_RINGBUFS && Closed(k, k', i, p, top) && SlotsOk(k')
    ensures TablesOk(k')
  {
    hide WindowsOk, WindowOk, SlotOk, Apart, Used;
    forall q, v | q in k'.tables && v in k'.tables[q]
      ensures k'.tables[q][v] !in k'.free
      ensures forall j | 0 <= j < MAX_RINGBUFS && Live(k'.slots[j]) && k'.tables[q][v] in Pages(k'.slots[j]) ::
        Used(k'.users[j], q, v)
    {
      assert v in k.tables[q] && k'.tables[q][v] == k.tables[q][v];
      if k'.tables[q][v] in Pages(k.slots[i]) { ClosePage(k, k', i, p, top, q, v, i); }
      forall j | 0 <= j < MAX_RINGBUFS && Live(k'.slots[j]) && k'.tables[q][v] in Pages(k'.slots[j])
        ensures Used(k'.users[j], q, v)
      {
        assert Live(k.slots[j]) && Pages(k.slots[j]) == Pages(k'.slots[j]);
        ClosePage(k, k', i, p, top, q, v, j);
      }
    }
  }

  /** Offset x is one byte in the window at `a` of t, in its second half, and in the window at `b` of u. */
  ghost predicate OneByte(t: Table, a: int, u: Table, b: int, x: nat)
    requires Mapped(t, a) && Mapped(u, b) && x < RINGBUF_SIZE * PGSIZE
  {
    Byte(t, a, x) == Byte(t, a, x + RINGBUF_SIZE * PGSIZE) == Byte(u, b, x)
  }

  /** The book address the user computes from the window at `a` shows that page. */
  ghost predicate OneBook(t: Table, a: int, book: int) {
    UserBook(a * PGSIZE) / PGSIZE in t && t[UserBook(a * PGSIZE) / PGSIZE] == book
  }

  /** In every process that has a ring open, whether it created or appended it: offsets x and x + 65536 are one
      byte, a window of at most 65536 bytes from an offset below 65536 meets no byte twice, and all users see the
      same memory. */
  lemma SharedView(k: K, i: nat, p: int, a: int, q: int, b: int, x: nat, start: nat, y: nat, z: nat)
    requires Inv(k) && i < MAX_RINGBUFS && (p, a) in k.users[i] && (q, b) in k.users[i]
    requires x < RINGBUF_SIZE * PGSIZE && start < RINGBUF_SIZE * PGSIZE && y < z < RINGBUF_SIZE * PGSIZE
    ensures p in k.tables && q in k.tables && Mapped(k.tables[p], a) && Mapped(k.tables[q], b)
    ensures OneByte(k.tables[p], a, k.tables[q], b, x)
    ensures Byte(k.tables[p], a, start + y) != Byte(k.tables[p], a, start + z)
    ensures OneBook(k.tables[p], a, k.slots[i].book) && OneBook(k.tables[q], b, k.slots[i].book)
  {
    hide TablesOk, Pages, Apart;
    var buf := k.slots[i].buf;
    assert WindowOk(k.tables[p], a, k.slots[i]) && WindowOk(k.tables[q], b, k.slots[i]);
    hide WindowsOk, SlotsOk;
    MirrorsMapped(k.tables[p], a, buf);
    MirrorsMapped(k.tables[q], b, buf);
    Alias(k.tables[p], a, buf, x);
    ByteAt(k.tables[p], a, buf, x);
    ByteAt(k.tables[q], b, buf, x);
    WindowOnce(k.tables[p], a, buf, start, RINGBUF_SIZE * PGSIZE, y, z);
    BookAgrees(a);
    BookAgrees(b);
  }
}
