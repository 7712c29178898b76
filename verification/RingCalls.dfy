/** The ringbuf system call as a relation between states: what every call does, and exactly which calls keep the table
    and the pages in order. */
module RingCalls {
  import opened Params
  import opened RingPages
  import opened RingRegistry

  /** `addr` is the page number read at the user's address; `copied` says whether the final copyout succeeds. */
  datatype Call = Call(p: int, name: string, open: bool, addr: int, copied: bool)

  ghost predicate Room(t: Table) { exists h :: FreeRun(t, h, WANT) }

  /** append_ringbuf would map its book page over a mapped page. */
  ghost predicate BookTaken(t: Table) { FreeRun(t, TOP, WANT) && TOP - WANT in t }

  /** Opening: -1 with nothing done when there is no room; else append to ring i or create. -2 is a panic. */
  ghost predicate OpenStep(k: K, k': K, p: int, name: string, copied: bool, r: int, i: nat, hi: int) {
    && p in k.tables
    && if !Room(k.tables[p]) then r == -1 && k' == k
       else
         && Highest(k.tables[p], hi)
         && if Named(k.slots, name) then AppendStep(k, k', p, name, copied, r, i, AppendTop(hi))
            else CreateStep(k, k', p, name, copied, r, CreateTop(hi))
  }

  ghost predicate AppendStep(k: K, k': K, p: int, name: string, copied: bool, r: int, i: nat, top: int)
    requires p in k.tables
  {
    && i < |k.slots| && k.slots[i].name == name
    && if BookTaken(k.tables[p]) then r == -2
       else if copied then r == 0 && Appended(k, k', i, p, top)
       else r == -1 && Stray(k, k', i, p, top)
  }

  ghost predicate CreateStep(k: K, k': K, p: int, name: string, copied: bool, r: int, top: int) {
    if |k.free| <= RINGBUF_SIZE then r == -2
    else if copied then r == 0 && Created(k, k', p, top, name)
    else r == -1 && exists s :: Leaked(k, k', p, top, s)
  }

  /** Closing at page `top`. The count goes down before the address is looked at. */
  ghost predicate CloseStep(k: K, k': K, p: int, name: string, top: int, r: int, i: nat) {
    && p in k.tables
    && if !Named(k.slots, name) then r == -1 && k' == k
       else
         && i < |k.slots| && k.slots[i].name == name
         && if top !in k.tables[p]
            then r == -1 && k' == k.(slots := k.slots[i := k.slots[i].(refcount := k.slots[i].refcount - 1)])
            else if exists v :: Placed(top, v) && v !in k.tables[p] then r == -2
            else r == 0 && Unmaps(k, k', i, p, top)
  }

  /** The two tests every call meets first, closing calls too. */
  ghost predicate Refused(k: K, c: Call) { LiveCount(k.slots) >= MAX_RINGBUFS || |c.name| > RINGBUF_NAME_LEN }

  ghost predicate Step(k: K, k': K, c: Call, r: int) {
    if Refused(k, c) then r == -1 && k' == k
    else if c.open then exists i: nat, hi: int :: OpenStep(k, k', c.p, c.name, c.copied, r, i, hi)
    else exists i: nat :: CloseStep(k, k', c.p, c.name, c.addr, r, i)
  }

  /** The process has this window of the ring with this name open. */
  ghost predicate Opens(k: K, name: string, p: int, top: int) {
    exists i :: 0 <= i < |k.slots| == |k.users| && k.slots[i].name == name && (p, top) in k.users[i]
  }

  /** A call that does no harm: refused or out of room; an append that is reported; a create that is reported and finds
      its slot free; a close of a window that is open, or of no ring. */
  ghost predicate Harmless(k: K, c: Call)
    requires c.p in k.tables && |k.slots| == MAX_RINGBUFS
  {
    || Refused(k, c)
    || (if c.open
        then !Room(k.tables[c.p]) || (c.copied && (Named(k.slots, c.name) || !Live(k.slots[LiveCount(k.slots)])))
        else !Named(k.slots, c.name) || Opens(k, c.name, c.p, c.addr))
  }

  /** A ring that is struck from the table leaves a table in order and its pages behind. */
  lemma Forget(k: K, c: nat, dead: Slot)
    requires Inv(k) && c < MAX_RINGBUFS && Live(k.slots[c]) && !Live(dead)
    ensures var k' := k.(slots := k.slots[c := dead], users := k.users[c := {}]);
      Inv(k') && Total(k') == Total(k) - Pages(k.slots[c])
  {
    var k' := k.(slots := k.slots[c := dead], users := k.users[c := {}]);
    assert SlotsOk(k') by {
      hide WindowsOk, TablesOk;
      SlotChanged(k, k', c, dead, {});
    }
    assert WindowsOk(k') by { hide TablesOk, Pages, WindowOk, SlotOk; }
    assert TablesOk(k') by { hide WindowsOk, WindowOk, SlotOk, Pages, Used, Apart; }
    hide WindowsOk, TablesOk, SlotOk, Apart, Pages;
    HeldUpdate(k.slots, MAX_RINGBUFS, c, dead);
  }

  /** The pages of a live ring are among all pages, so losing them shows. */
  lemma Lost(k: K, k': K, s: Slot)
    requires Pages(s) <= Total(k) && Total(k') == Total(k) - Pages(s)
    ensures Total(k') != Total(k)
  {
    assert s.book in Pages(s);
  }

  lemma LiveHeld(k: K, c: nat)
    requires c < |k.slots| && Live(k.slots[c])
    ensures Pages(k.slots[c]) <= Total(k)
  {
    HeldIn(k.slots, |k.slots|, c);
  }

  /** Creating in a free slot keeps every page; over a live ring it loses that ring's pages. */
  lemma CreatedKeeps(k: K, k': K, p: int, top: int, name: string)
    requires Inv(k) && Created(k, k', p, top, name) && !Named(k.slots, name) && name != ""
    ensures Inv(k') && (Total(k') == Total(k) <==> !Live(k.slots[LiveCount(k.slots)]))
  {
    hide WindowsOk, TablesOk, Added, Apart, SlotOk, Pages, Held;
    var c := LiveCount(k.slots);
    var s := k'.slots[c];
    assert forall j | 0 <= j < MAX_RINGBUFS :: k.slots[j].name != name;
    if Live(k.slots[c]) {
      var dead := Slot(0, "", [], 0);
      var k1 := k.(slots := k.slots[c := dead], users := k.users[c := {}]);
      Forget(k, c, dead);
      assert k1.users[c] + {(p, top)} == {(p, top)};
      assert k'.slots == k1.slots[c := s] && k'.users == k1.users[c := {(p, top)}];
      CreateInv(k1, k', c, p, top, s);
      LiveHeld(k, c);
      Lost(k, k1, k.slots[c]);
    } else {
      assert k.users[c] == {};
      assert k.users[c] + {(p, top)} == {(p, top)};
      CreateInv(k, k', c, p, top, s);
    }
  }

  /** The pages of a ring that is stored over are neither free nor held. */
  lemma CreatedOver(k: K, k': K, p: int, top: int, name: string)
    requires Inv(k) && Created(k, k', p, top, name) && !Named(k.slots, name) && name != ""
    requires Live(k.slots[LiveCount(k.slots)])
    ensures Inv(k') && Pages(k.slots[LiveCount(k.slots)]) !! Total(k')
    ensures forall other | other != name && other != k.slots[LiveCount(k.slots)].name ::
      Named(k'.slots, other) <==> Named(k.slots, other)
    ensures !Named(k'.slots, k.slots[LiveCount(k.slots)].name)
  {
    hide WindowsOk, TablesOk, Added, Apart, SlotOk, Pages;
    var c := LiveCount(k.slots);
    CreatedKeeps(k, k', p, top, name);
    HeldUpdate(k.slots, MAX_RINGBUFS, c, k'.slots[c]);
    assert forall j | 0 <= j < MAX_RINGBUFS && j != c && Live(k.slots[j]) :: k.slots[j].name != k.slots[c].name;
    assert forall j | 0 <= j < MAX_RINGBUFS && j != c :: k'.slots[j] == k.slots[j];
  }

  /** Pages mapped for a ring that is not stored are lost; the table is in order. */
  lemma LeakedLoses(k: K, k': K, p: int, top: int, s: Slot)
    requires Inv(k) && Leaked(k, k', p, top, s) && LiveCount(k.slots) < MAX_RINGBUFS
    ensures Inv(k') && Total(k') == Total(k) - Pages(s) && Total(k') != Total(k)
  {
    hide WindowsOk, TablesOk, Added, Apart, SlotOk, Held;
    CountBound(k.slots);
    var d :| 0 <= d < MAX_RINGBUFS && !Live(k.slots[d]);
    var name := NewName(k.slots, MAX_RINGBUFS);
    var s1 := s.(refcount := 1, name := name);
    var k1 := k.(slots := k.slots[d := s1], users := k.users[d := k.users[d] + {(p, top)}], free := k'.free,
                 tables := k'.tables);
    SamePages(s, s1);
    AddedSame(k.tables[p], k'.tables[p], top, s, s1);
    CreateInv(k, k1, d, p, top, s1);
    Forget(k1, d, k.slots[d]);
    assert k1.slots[d := k.slots[d]] == k.slots && k1.users[d := {}] == k.users;
    hide Pages;
    LiveHeld(k1, d);
    Lost(k, k', s1);
  }

  lemma AddedSame(t0: Table, t: Table, top: int, s: Slot, s': Slot)
    requires |s.buf| == RINGBUF_SIZE && Added(t0, t, top, s) && s'.buf == s.buf && s'.book == s.book
    ensures Added(t0, t, top, s')
  {
  }

  /** A name that is not in the table. */
  lemma {:induction false} NewName(slots: seq<Slot>, n: nat) returns (name: string)
    requires n <= |slots|
    ensures name != "" && forall j | 0 <= j < n :: |slots[j].name| < |name|
  {
    if n == 0 {
      name := "r";
    } else {
      name := NewName(slots, n - 1);
      name := name + slots[n - 1].name;
    }
  }

  /** A window nobody counts breaks the table. */
  lemma StrayBreaks(k: K, k': K, i: nat, p: int, top: int)
    requires Inv(k) && i < MAX_RINGBUFS && Live(k.slots[i]) && Stray(k, k', i, p, top)
    ensures !Inv(k')
  {
    WindowPages(k'.tables[p], top, k.slots[i], top);
  }

  /** A count that went down without a window going away is wrong. */
  lemma CountOff(k: K, k': K, i: nat)
    requires Inv(k) && i < MAX_RINGBUFS && Live(k.slots[i]) && k'.users == k.users && |k'.slots| == MAX_RINGBUFS
    requires k'.slots[i].refcount == k.slots[i].refcount - 1
    ensures !Inv(k')
  {
    hide TablesOk, WindowsOk, Pages, Apart;
    assert SlotOk(k.slots[i], k.users[i]);
  }

  lemma UserMapped(k: K, i: nat, p: int, top: int)
    requires Inv(k) && i < MAX_RINGBUFS && (p, top) in k.users[i]
    ensures p in k.tables && (forall v | Placed(top, v) :: v in k.tables[p]) && top in k.tables[p]
  {
    hide TablesOk, Pages, Apart;
    assert WindowOk(k.tables[p], top, k.slots[i]);
    assert Placed(top, top);
  }

  lemma OpenHarm(k: K, k': K, p: int, name: string, copied: bool, r: int, i: nat, hi: int)
    requires Inv(k) && OpenStep(k, k', p, name, copied, r, i, hi) && r != -2 && name != ""
    requires LiveCount(k.slots) < MAX_RINGBUFS
    ensures Inv(k') <==> !Room(k.tables[p]) || copied || !Named(k.slots, name)
    ensures Inv(k') && Total(k') == Total(k) <==>
      !Room(k.tables[p]) || (copied && (Named(k.slots, name) || !Live(k.slots[LiveCount(k.slots)])))
  {
    hide Inv, Total, Highest, Created, Appended, Stray, Leaked, Pages;
    if Room(k.tables[p]) {
      hide Room;
      if Named(k.slots, name) {
        if copied { AppendKeeps(k, k', i, p, AppendTop(hi)); } else { StrayHarm(k, k', i, p, AppendTop(hi)); }
      } else if copied {
        CreatedKeeps(k, k', p, CreateTop(hi), name);
      } else {
        var s :| Leaked(k, k', p, CreateTop(hi), s);
        LeakedLoses(k, k', p, CreateTop(hi), s);
      }
    }
  }

  lemma AppendKeeps(k: K, k': K, i: nat, p: int, top: int)
    requires Inv(k) && i < |k.slots| && Live(k.slots[i]) && Appended(k, k', i, p, top)
    ensures Inv(k') && Total(k') == Total(k)
  {
    hide WindowsOk, TablesOk, Added, Apart, SlotOk, Pages;
    AppendInv(k, k', i, p, top);
  }

  lemma StrayHarm(k: K, k': K, i: nat, p: int, top: int)
    requires Inv(k) && i < |k.slots| && Live(k.slots[i]) && Stray(k, k', i, p, top)
    ensures !Inv(k')
  {
    hide WindowsOk, TablesOk, Added, Apart, SlotOk, Pages;
    StrayBreaks(k, k', i, p, top);
  }

  lemma OneNamed(k: K, name: string, i: nat, j: nat)
    requires Inv(k) && i < |k.slots| && j < |k.slots| && k.slots[i].name == k.slots[j].name == name != ""
    ensures i == j
  {
    hide WindowsOk, TablesOk, Apart, SlotOk, Pages;
  }

  lemma CloseHarm(k: K, k': K, p: int, name: string, top: int, r: int, i: nat)
    requires Inv(k) && CloseStep(k, k', p, name, top, r, i) && r != -2 && name != ""
    ensures Inv(k') <==> !Named(k.slots, name) || Opens(k, name, p, top)
    ensures Inv(k') ==> Total(k') == Total(k)
  {
    hide WindowsOk, TablesOk, Apart, SlotOk, Pages, Held, Placed;
    if Named(k.slots, name) {
      assert Opens(k, name, p, top) <==> (p, top) in k.users[i] by {
        if j :| 0 <= j < |k.slots| && k.slots[j].name == name && (p, top) in k.users[j] { OneNamed(k, name, i, j); }
      }
      if (p, top) in k.users[i] {
        UserMapped(k, i, p, top);
        CloseInv(k, k', i, p, top);
      } else {
        assert k.users[i] - {(p, top)} == k.users[i];
        CountOff(k, k', i);
      }
    }
  }

  /** Exactly the harmless calls leave a table in order with every page free or held by a ring. */
  lemma StepKeeps(k: K, k': K, c: Call, r: int)
    requires Inv(k) && Step(k, k', c, r) && r != -2 && c.name != "" && c.p in k.tables
    ensures Inv(k') && Total(k') == Total(k) <==> Harmless(k, c)
  {
    hide Inv, Total, OpenStep, CloseStep, Room, Opens;
    Sizes(k);
    if !Refused(k, c) {
      if c.open {
        var i: nat, hi :| OpenStep(k, k', c.p, c.name, c.copied, r, i, hi);
        OpenHarm(k, k', c.p, c.name, c.copied, r, i, hi);
      } else {
        var i: nat :| CloseStep(k, k', c.p, c.name, c.addr, r, i);
        CloseHarm(k, k', c.p, c.name, c.addr, r, i);
      }
    }
  }

  lemma Sizes(k: K)
    requires Inv(k)
    ensures |k.slots| == |k.users| == MAX_RINGBUFS
  {
  }

  /** A live ring in a live slot, or in the first free one, keeps the prefix. */
  lemma PrefixSet(slots: seq<Slot>, c: nat, s: Slot)
    requires Prefix(slots) && c < |slots| && c <= LiveCount(slots) && Live(s)
    ensures Prefix(slots[c := s])
  {
    forall j | 0 <= j < |slots| ensures Live(slots[j]) <==> j < LiveCount(slots) { PrefixCount(slots, j); }
  }

  lemma OpenPrefix(k: K, k': K, p: int, name: string, copied: bool, r: int, i: nat, hi: int)
    requires OpenStep(k, k', p, name, copied, r, i, hi) && r != -2 && name != "" && Prefix(k.slots)
    ensures Prefix(k'.slots)
  {
    hide Highest, Added, Pages, Prefix, LiveCount, Room, BookTaken;
    if k'.slots != k.slots {
      if Named(k.slots, name) {
        PrefixCount(k.slots, i);
        PrefixSet(k.slots, i, k'.slots[i]);
      } else {
        PrefixSet(k.slots, LiveCount(k.slots), k'.slots[LiveCount(k.slots)]);
      }
    }
  }

  lemma ClosePrefix(k: K, k': K, p: int, name: string, top: int, r: int, i: nat)
    requires CloseStep(k, k', p, name, top, r, i) && r != -2 && name != "" && Prefix(k.slots)
    ensures Prefix(k'.slots) <==> !(r == 0 && k.slots[i].refcount == 1 && i != LiveCount(k.slots) - 1)
  {
    hide Pages, Prefix, LiveCount, Placed;
    if Named(k.slots, name) {
      PrefixCount(k.slots, i);
      if r == 0 && k.slots[i].refcount == 1 {
        GivenUp(k.slots, i, k'.slots[i]);
      } else {
        PrefixSet(k.slots, i, k'.slots[i]);
      }
    }
  }

  /** The last close of a ring that is not the highest. */
  ghost predicate GivesUp(k: K, c: Call, r: int) {
    && !c.open && r == 0
    && exists i :: 0 <= i < |k.slots| && k.slots[i].name == c.name && k.slots[i].refcount == 1 &&
         i != LiveCount(k.slots) - 1
  }

  /** The live rings stay a prefix except after such a close. */
  lemma StepPrefix(k: K, k': K, c: Call, r: int)
    requires Inv(k) && Step(k, k', c, r) && r != -2 && c.name != "" && Prefix(k.slots)
    ensures Prefix(k'.slots) <==> !GivesUp(k, c, r)
  {
    hide Inv, OpenStep, CloseStep, Prefix, LiveCount;
    if !Refused(k, c) {
      if c.open {
        var i: nat, hi :| OpenStep(k, k', c.p, c.name, c.copied, r, i, hi);
        OpenPrefix(k, k', c.p, c.name, c.copied, r, i, hi);
      } else {
        var i: nat :| CloseStep(k, k', c.p, c.name, c.addr, r, i);
        ClosePrefix(k, k', c.p, c.name, c.addr, r, i);
        if r == 0 {
          CloseNamed(k, k', c.p, c.name, c.addr, r, i);
          GivesUpAt(k, c, r, i);
        }
      }
    }
  }

  lemma GivesUpAt(k: K, c: Call, r: int, i: nat)
    requires Inv(k) && i < |k.slots| && k.slots[i].name == c.name != "" && !c.open && r == 0
    ensures GivesUp(k, c, r) <==> k.slots[i].refcount == 1 && i != LiveCount(k.slots) - 1
  {
    hide Inv, LiveCount;
    forall j | 0 <= j < |k.slots| && k.slots[j].name == c.name ensures j == i { OneNamed(k, c.name, i, j); }
  }

  lemma CloseNamed(k: K, k': K, p: int, name: string, top: int, r: int, i: nat)
    requires CloseStep(k, k', p, name, top, r, i) && r == 0
    ensures i < |k.slots| && k.slots[i].name == name
  {
  }

  // ---- whole runs ----

  ghost predicate Run(ks: seq<K>, cs: seq<Call>, rs: seq<int>) {
    && |rs| == |cs| && |ks| == |cs| + 1 && (forall n | 0 <= n < |rs| - 1 :: rs[n] != -2)
    && forall n | 0 <= n < |cs| :: Step(ks[n], ks[n + 1], cs[n], rs[n]) && cs[n].name != "" && cs[n].p in ks[n].tables
  }

  /** What a user program that keeps to the rules does: its addresses can be written, it closes its own windows, and it
      gives up no ring but the highest. */
  ghost predicate Orderly(k: K, c: Call, r: int) {
    r != -2 && (c.open ==> c.copied) && (!c.open ==> Opens(k, c.name, c.p, c.addr)) && !GivesUp(k, c, r)
  }

  /** Then no ring is ever overwritten and no page is ever lost. */
  lemma {:induction false} RunKeeps(ks: seq<K>, cs: seq<Call>, rs: seq<int>, n: nat)
    requires Run(ks, cs, rs) && n < |ks| && Inv(ks[0]) && Prefix(ks[0].slots)
    requires forall m | 0 <= m < n :: Orderly(ks[m], cs[m], rs[m])
    ensures Inv(ks[n]) && Prefix(ks[n].slots) && Total(ks[n]) == Total(ks[0])
  {
    hide Inv, Prefix, Total, Step, LiveCount, GivesUp, Opens;
    if n > 0 {
      var k, c := ks[n - 1], cs[n - 1];
      RunKeeps(ks, cs, rs, n - 1);
      StepKeeps(k, ks[n], c, rs[n - 1]);
      StepPrefix(k, ks[n], c, rs[n - 1]);
      Sizes(k);
      if !Refused(k, c) { CreateSlotFree(k.slots); }
    }
  }

  /** Ten live rings are the end: no call of any kind ever changes anything again. */
  lemma {:induction false} FullForever(ks: seq<K>, cs: seq<Call>, rs: seq<int>, n: nat)
    requires Run(ks, cs, rs) && n < |ks| && LiveCount(ks[0].slots) >= MAX_RINGBUFS
    ensures ks[n] == ks[0] && forall m | 0 <= m < n :: rs[m] == -1
  {
    hide OpenStep, CloseStep;
    if n > 0 { FullForever(ks, cs, rs, n - 1); }
  }
}
