/** The buffer cache's intrusive LRU ring: NBUF buffers and a head, linked by index. */
module Bcache {
  import opened Option
  import opened Params

  const HEAD: nat := 30      // the index of bcache.head

  datatype Buf = Buf(valid: bool, dev: nat, blockno: nat, refcnt: nat, prev: nat, next: nat)

  // ---- the ring, over any list of linked buffers ----

  /** Position `i` of the cycle; the head stands before the first and after the last buffer. */
  function At(order: seq<nat>, i: int): nat { if 0 <= i < |order| then order[i] else HEAD }

  ghost predicate Edge(bufs: seq<Buf>, order: seq<nat>, i: int) {
    var a, b := At(order, i - 1), At(order, i);
    a < |bufs| && b < |bufs| && bufs[a].next == b && bufs[b].prev == a
  }

  ghost predicate Distinct(order: seq<nat>) {
    (forall i | 0 <= i < |order| :: order[i] < NBUF) && forall i, j | 0 <= i < j < |order| :: order[i] != order[j]
  }

  /** Following next from the head visits `order` and comes back; prev is the way back. */
  ghost predicate Ring(bufs: seq<Buf>, order: seq<nat>) {
    && |bufs| == NBUF + 1 && Distinct(order)
    && forall i {:trigger Edge(bufs, order, i)} | 0 <= i <= |order| :: Edge(bufs, order, i)
  }

  function SetNext(bufs: seq<Buf>, i: nat, v: nat): seq<Buf>
    requires i < |bufs|
  {
    bufs[i := bufs[i].(next := v)]
  }

  function SetPrev(bufs: seq<Buf>, i: nat, v: nat): seq<Buf>
    requires i < |bufs|
  {
    bufs[i := bufs[i].(prev := v)]
  }

  function Without(order: seq<nat>, j: nat): seq<nat>
    requires j < |order|
  {
    order[..j] + order[j + 1..]
  }

  lemma AtDistinct(order: seq<nat>, i: int, j: int)
    requires Distinct(order) && -1 <= i < j <= |order| && !(i == -1 && j == |order|)
    ensures At(order, i) != At(order, j)
  {
  }

  lemma Unlink(bufs: seq<Buf>, order: seq<nat>, j: nat)
    requires Ring(bufs, order) && j < |order|
    ensures var b := order[j];
      && bufs[b].next <= NBUF && bufs[b].prev <= NBUF
      && var bufs1 := SetPrev(bufs, bufs[b].next, bufs[b].prev);
         bufs1[b].prev <= NBUF && Ring(SetNext(bufs1, bufs1[b].prev, bufs1[b].next), Without(order, j))
  {
    assert Edge(bufs, order, j) && Edge(bufs, order, j + 1);
    var b, r := order[j], Without(order, j);
    AtDistinct(order, j - 1, j);
    AtDistinct(order, j, j + 1);
    var bufs1 := SetPrev(bufs, bufs[b].next, bufs[b].prev);
    var bufs2 := SetNext(bufs1, bufs1[b].prev, bufs1[b].next);
    forall i | 0 <= i <= |r| ensures Edge(bufs2, r, i) {
      if i < j {
        assert Edge(bufs, order, i);
        AtDistinct(order, i - 1, j - 1);
        if !(i == 0 && j == |order| - 1) { assert At(order, i) != At(order, j + 1); }
      } else if i > j {
        assert Edge(bufs, order, i + 1);
      }
    }
  }

  lemma PushFront(bufs: seq<Buf>, order: seq<nat>, b: nat)
    requires Ring(bufs, order) && b < NBUF && b !in order
    ensures bufs[HEAD].next <= NBUF
    ensures var bufs1 := SetPrev(SetNext(bufs, b, bufs[HEAD].next), b, HEAD);
      && bufs1[HEAD].next <= NBUF
      && Ring(SetNext(SetPrev(bufs1, bufs1[HEAD].next, b), HEAD, b), [b] + order)
  {
    assert Edge(bufs, order, 0);
    var bufs1 := SetPrev(SetNext(bufs, b, bufs[HEAD].next), b, HEAD);
    var bufs2, r := SetNext(SetPrev(bufs1, bufs1[HEAD].next, b), HEAD, b), [b] + order;
    forall i | 0 <= i <= |r| ensures Edge(bufs2, r, i) {
      if i > 1 {
        assert Edge(bufs, order, i - 1);
        assert At(r, i - 1) == At(order, i - 2) && At(r, i) == At(order, i - 1);
      }
    }
  }

  /** `k` times next from the head. */
  ghost function Follow(bufs: seq<Buf>, k: nat): nat {
    if k == 0 then HEAD
    else
      var b := Follow(bufs, k - 1);
      if b < |bufs| then bufs[b].next else b
  }

  /** next and prev are each other's inverse on the whole ring, and next from the head makes one
      round trip through every buffer in `order`. */
  lemma {:induction false} OneCycle(bufs: seq<Buf>, order: seq<nat>, k: nat)
    requires Ring(bufs, order) && k <= |order| + 1
    ensures Follow(bufs, k) == At(order, k - 1)
    ensures k <= |order| ==> bufs[At(order, k)].prev <= NBUF && bufs[bufs[At(order, k)].prev].next == At(order, k)
    ensures k <= |order| ==>
      bufs[At(order, k - 1)].next <= NBUF && bufs[bufs[At(order, k - 1)].next].prev == At(order, k - 1)
  {
    if k <= |order| { assert Edge(bufs, order, k); }
    if k > 0 {
      OneCycle(bufs, order, k - 1);
      assert Edge(bufs, order, k - 1);
    }
  }

  // ---- keys and ages ----

  predicate HasKey(x: Buf, dev: nat, blockno: nat) { x.dev == dev && x.blockno == blockno }

  /** At most one buffer per block of a real device; all buffers start as block 0 of device 0. */
  ghost predicate OneEach(bufs: seq<Buf>)
    requires |bufs| == NBUF + 1
  {
    forall i, j | 0 <= i < j < NBUF && bufs[i].dev != 0 :: !HasKey(bufs[j], bufs[i].dev, bufs[i].blockno)
  }

  /** `stamp[b]` is when b's last reference was released; the ring runs from young to old. */
  ghost predicate Aged(order: seq<nat>, stamp: seq<int>, clock: int) {
    && |stamp| == NBUF && Distinct(order) && (forall b | 0 <= b < NBUF :: stamp[b] < clock)
    && forall i, j | 0 <= i < j < |order| :: stamp[order[i]] > stamp[order[j]]
  }

  /** All but the links. */
  ghost predicate SameData(bufs: seq<Buf>, bufs': seq<Buf>) {
    && |bufs'| == |bufs|
    && forall i | 0 <= i < |bufs| :: bufs'[i] == bufs[i].(prev := bufs'[i].prev, next := bufs'[i].next)
  }

  ghost predicate Covers(order: seq<nat>) { forall b: nat | b < NBUF :: b in order }

  /** `order'` is `order` with `b` moved to the front. */
  ghost predicate Moved(order: seq<nat>, order': seq<nat>, b: nat) {
    exists j: nat :: j < |order| && order[j] == b && order' == [b] + Without(order, j)
  }

  lemma Position(order: seq<nat>, b: nat) returns (j: nat)
    requires Covers(order) && b < NBUF
    ensures j < |order| && order[j] == b
  {
    assert b in order;
    j :| j < |order| && order[j] == b;
  }

  lemma CoversMove(order: seq<nat>, j: nat)
    requires Covers(order) && j < |order|
    ensures Covers([order[j]] + Without(order, j))
  {
    forall b: nat | b < NBUF ensures b in [order[j]] + Without(order, j) {
      var k := Position(order, b);
      if k != j { assert Without(order, j)[if k < j then k else k - 1] == b; }
    }
  }

  lemma Rejuvenate(order: seq<nat>, stamp: seq<int>, clock: int, j: nat)
    requires Aged(order, stamp, clock) && j < |order|
    ensures |stamp| == NBUF && order[j] < NBUF
    ensures Aged([order[j]] + Without(order, j), stamp[order[j] := clock], clock + 1)
  {
    var r := [order[j]] + Without(order, j);
    assert forall i | 1 <= i < |r| :: r[i] == order[if i - 1 < j then i - 1 else i];
  }

  class Cache {
    const buf: array<Buf>
    ghost var order: seq<nat>
    ghost var stamp: seq<int>
    ghost var clock: int

    ghost predicate Valid()
      reads this, buf
    {
      && buf.Length == NBUF + 1 && Ring(buf[..], order)
      && |order| == NBUF && Covers(order)
      && OneEach(buf[..]) && Aged(order, stamp, clock)
    }

    /** binit. */
    constructor ()
      ensures Valid() && fresh(buf)
      ensures forall b | 0 <= b < NBUF :: buf[b].refcnt == 0 && !buf[b].valid && HasKey(buf[b], 0, 0)
    {
      buf := new Buf[NBUF + 1](_ => Buf(false, 0, 0, 0, HEAD, HEAD));
      order, stamp, clock := [], seq(NBUF, b => b), NBUF;
      new;
      var b := 0;
      assert Edge(buf[..], order, 0);
      while b < NBUF
        invariant 0 <= b <= NBUF && Ring(buf[..], order) && |order| == b && Aged(order, stamp, clock)
        invariant forall i | 0 <= i < b :: order[i] == b - 1 - i
        invariant stamp == seq(NBUF, c => c)
        invariant forall i | 0 <= i <= NBUF :: buf[i] == Buf(false, 0, 0, 0, buf[i].prev, buf[i].next)
      {
        LinkFront(b);
        b := b + 1;
      }
      forall b: nat | b < NBUF ensures b in order { assert order[NBUF - 1 - b] == b; }
    }

    /** The four stores that put `b` behind the head. */
    method LinkFront(b: nat)
      requires buf.Length == NBUF + 1 && Ring(buf[..], order) && b < NBUF && b !in order
      modifies buf, this`order
      ensures order == [b] + old(order) && Ring(buf[..], order) && SameData(old(buf[..]), buf[..])
    {
      PushFront(buf[..], order, b);
      ghost var s0 := buf[..];
      buf[b] := buf[b].(next := buf[HEAD].next);
      buf[b] := buf[b].(prev := HEAD);
      ghost var s1 := buf[..];
      assert s1 == SetPrev(SetNext(s0, b, s0[HEAD].next), b, HEAD);
      buf[buf[HEAD].next] := buf[buf[HEAD].next].(prev := b);
      buf[HEAD] := buf[HEAD].(next := b);
      assert buf[..] == SetNext(SetPrev(s1, s1[HEAD].next, b), HEAD, b);
      order := [b] + order;
    }

    /** bget's first scan, youngest first. */
    method FindCached(dev: nat, blockno: nat) returns (r: Option<nat>)
      requires Valid()
      ensures r.Some? ==> r.value < NBUF && HasKey(buf[r.value], dev, blockno)
      ensures r == None ==> forall c: nat | c < NBUF :: !HasKey(buf[c], dev, blockno)
    {
      hide Aged, OneEach;
      ghost var i := 0;
      assert Edge(buf[..], order, 0);
      var b := buf[HEAD].next;
      while b != HEAD
        invariant 0 <= i <= NBUF && b == At(order, i)
        invariant forall k | 0 <= k < i :: !HasKey(buf[order[k]], dev, blockno)
        decreases NBUF - i
      {
        if buf[b].dev == dev && buf[b].blockno == blockno { return Some(b); }
        assert Edge(buf[..], order, i + 1);
        b, i := buf[b].next, i + 1;
      }
      forall c: nat | c < NBUF ensures !HasKey(buf[c], dev, blockno) { var k := Position(order, c); }
      return None;
    }

    /** bget's second scan, oldest first. */
    method FindVictim() returns (r: Option<nat>)
      requires Valid()
      ensures r.Some? ==>
        && r.value < NBUF && buf[r.value].refcnt == 0
        && forall c: nat | c < NBUF && buf[c].refcnt == 0 && c != r.value :: stamp[r.value] < stamp[c]
      ensures r == None ==> forall c: nat | c < NBUF :: buf[c].refcnt != 0
    {
      hide OneEach;
      assert Edge(buf[..], order, NBUF);
      var b := buf[HEAD].prev;
      ghost var i := NBUF - 1;
      while b != HEAD
        invariant -1 <= i < NBUF && b == At(order, i)
        invariant forall k | i < k < NBUF :: buf[order[k]].refcnt != 0
        decreases i
      {
        if buf[b].refcnt == 0 {
          forall c: nat | c < NBUF && buf[c].refcnt == 0 && c != b
            ensures stamp[b] < stamp[c]
          { var k := Position(order, c); }
          return Some(b);
        }
        assert Edge(buf[..], order, i);
        b, i := buf[b].prev, i - 1;
      }
      forall c: nat | c < NBUF ensures buf[c].refcnt != 0 { var k := Position(order, c); }
      return None;
    }

    /** bget: a cached buffer, else the unreferenced buffer released longest ago, else panic. */
    method Bget(dev: nat, blockno: nat) returns (r: Option<nat>)
      requires Valid()
      modifies buf
      ensures Valid()
      ensures var was := old(buf[..]);
        if exists b :: 0 <= b < NBUF && HasKey(was[b], dev, blockno) then
          r.Some? && r.value < NBUF && HasKey(was[r.value], dev, blockno)
          && buf[..] == was[r.value := was[r.value].(refcnt := was[r.value].refcnt + 1)]
        else if exists b :: 0 <= b < NBUF && was[b].refcnt == 0 then
          r.Some? && r.value < NBUF && was[r.value].refcnt == 0
          && (forall c: nat | c < NBUF && was[c].refcnt == 0 && c != r.value :: stamp[r.value] < stamp[c])
          && buf[..] == was[r.value := was[r.value].(dev := dev, blockno := blockno, valid := false, refcnt := 1)]
        else r == None && buf[..] == was
    {
      hide Ring, Aged, Covers;
      ghost var was := buf[..];
      r := FindCached(dev, blockno);
      if r.Some? {
        var b := r.value;
        buf[b] := buf[b].(refcnt := buf[b].refcnt + 1);
        KeepLinks(was, buf[..], order);
        OneEachSame(was, buf[..]);
        return;
      }
      r := FindVictim();
      if r.Some? {
        var b := r.value;
        buf[b] := buf[b].(dev := dev, blockno := blockno, valid := false, refcnt := 1);
        KeepLinks(was, buf[..], order);
      }
    }

    /** The two stores that take `b` out of the ring. */
    method UnlinkBuf(b: nat, ghost j: nat)
      requires buf.Length == NBUF + 1 && Ring(buf[..], order) && j < |order| && order[j] == b
      modifies buf, this`order
      ensures order == Without(old(order), j) && Ring(buf[..], order) && SameData(old(buf[..]), buf[..])
    {
      ghost var s0 := buf[..];
      Unlink(s0, order, j);
      buf[buf[b].next] := buf[buf[b].next].(prev := buf[b].prev);
      ghost var s1 := buf[..];
      assert s1 == SetPrev(s0, s0[b].next, s0[b].prev);
      buf[buf[b].prev] := buf[buf[b].prev].(next := buf[b].next);
      assert buf[..] == SetNext(s1, s1[b].prev, s1[b].next);
      order := Without(order, j);
    }

    /** brelse: the last reference moves the buffer to the young end. */
    method Brelse(b: nat)
      requires Valid() && b < NBUF && buf[b].refcnt > 0
      modifies buf, this`order, this`stamp, this`clock
      ensures Valid()
      ensures var was := old(buf[..]);
        && SameData(was[b := was[b].(refcnt := was[b].refcnt - 1)], buf[..])
        && (was[b].refcnt > 1 ==> order == old(order) && stamp == old(stamp))
        && (was[b].refcnt == 1 ==> stamp == old(stamp)[b := old(clock)] && Moved(old(order), order, b))
    {
      hide Ring, Covers, OneEach, Aged;
      ghost var was := buf[..];
      buf[b] := buf[b].(refcnt := buf[b].refcnt - 1);
      ghost var s0 := buf[..];
      KeepLinks(was, s0, order);
      OneEachSame(was, s0);
      if buf[b].refcnt == 0 {
        ghost var j := Position(order, b);
        CoversMove(order, j);
        Rejuvenate(order, stamp, clock, j);
        AwayFrom(s0, order, j);
        UnlinkBuf(b, j);
        LinkFront(b);
        OneEachSame(s0, buf[..]);
        stamp, clock := stamp[b := clock], clock + 1;
      }
    }

    method Bpin(b: nat)
      requires Valid() && b < NBUF
      modifies buf
      ensures Valid() && buf[..] == old(buf[..])[b := old(buf[b]).(refcnt := old(buf[b]).refcnt + 1)]
    {
      ghost var was := buf[..];
      buf[b] := buf[b].(refcnt := buf[b].refcnt + 1);
      KeepLinks(was, buf[..], order);
    }

    /** bunpin; unlike brelse it never moves the buffer, not even when it drops the last reference. */
    method Bunpin(b: nat)
      requires Valid() && b < NBUF && buf[b].refcnt > 0
      modifies buf
      ensures Valid() && buf[..] == old(buf[..])[b := old(buf[b]).(refcnt := old(buf[b]).refcnt - 1)]
    {
      ghost var was := buf[..];
      buf[b] := buf[b].(refcnt := buf[b].refcnt - 1);
      KeepLinks(was, buf[..], order);
    }
  }

  lemma KeepLinks(bufs: seq<Buf>, bufs': seq<Buf>, order: seq<nat>)
    requires Ring(bufs, order) && |bufs'| == |bufs|
    requires forall i | 0 <= i < |bufs| :: bufs'[i].prev == bufs[i].prev && bufs'[i].next == bufs[i].next
    ensures Ring(bufs', order)
  {
    forall i | 0 <= i <= |order| ensures Edge(bufs', order, i) { assert Edge(bufs, order, i); }
  }

  lemma OneEachSame(bufs: seq<Buf>, bufs': seq<Buf>)
    requires |bufs| == |bufs'| == NBUF + 1 && OneEach(bufs)
    requires forall i | 0 <= i < NBUF :: bufs'[i].dev == bufs[i].dev && bufs'[i].blockno == bufs[i].blockno
    ensures OneEach(bufs')
  {
  }

  lemma AwayFrom(bufs: seq<Buf>, order: seq<nat>, j: nat)
    requires Ring(bufs, order) && j < |order|
    ensures order[j] !in Without(order, j)
  {
  }
}
