/** The ring's two shared counters under one producer and one consumer: every load and store is a step,
    the two processes interleave freely, and the clients may finish with any byte count. */
module RingProto {
  const SIZE: int := 65536                          // 16 pages of 4096 bytes
  const M: int := 0x1_0000_0000_0000_0000           // uint64

  /** A signed C int converted to uint64. */
  function U64(b: int): int { b % M }

  /** uint64 subtraction. */
  function Sub(a: int, b: int): int { (a - b) % M }

  /** The byte counts handed out by ringbuf_start_write and ringbuf_start_read. */
  function WriteBytes(read: int, write: int): int { Sub(SIZE, Sub(write, read)) }

  function ReadBytes(read: int, write: int): int { Sub(write, read) }

  /** The write address uses the parenthesised macro, the read address does not: (read % 16) * 4096. */
  function WriteOffset(write: int): int { write % SIZE }

  function ReadOffset(read: int): int { read % 16 * 4096 }

  /** Byte `k` of the consumer's window; the ring's pages are mapped twice in a row. */
  function ByteRead(phys: seq<int>, read: int, k: nat): int
    requires |phys| == SIZE
  {
    phys[(ReadOffset(read) + k) % SIZE]
  }

  /** Registers hold uint64 values; `ro`, `wo` are the unbounded counters at the time of the loads. */
  datatype Prod =
    | PIdle
    | PStart(read: int, ro: nat)                              // start_write has loaded read_done
    | PWin(read: int, write: int, ro: nat)                    // a window is granted
    | PFin(b: int)                                            // finish_write(b) is called
    | PFinR(b: int, read: int, ro: nat)
    | PFinW(b: int, read: int, write: int, ro: nat)
    | PExit                                                   // exit(1): the claim was too large

  datatype Cons =
    | CIdle
    | CStart(read: int)
    | CWin(read: int, write: int, wo: nat)
    | CFin(b: int)
    | CFinR(b: int, read: int)
    | CFinW(b: int, read: int, write: int, wo: nat)

  /** The shared words, and the counters as if they never wrapped. */
  datatype State = State(readDone: int, writeDone: int, r: nat, w: nat, prod: Prod, cons: Cons)

  datatype Step =
    | LoadP                 // the producer's next load
    | StoreP                // finish_write's check and store
    | FinishP(b: int)       // the producer calls finish_write
    | LoadC
    | StoreC
    | FinishC(b: int)

  predicate IsInt(b: int) { -0x8000_0000 <= b < 0x8000_0000 }

  predicate Enabled(s: State, st: Step) {
    match st
    case LoadP => s.prod.PIdle? || s.prod.PStart? || s.prod.PWin? || s.prod.PFin? || s.prod.PFinR?
    case StoreP => s.prod.PFinW?
    case FinishP(b) => IsInt(b) && (s.prod.PIdle? || s.prod.PWin?)
    case LoadC => s.cons.CIdle? || s.cons.CStart? || s.cons.CWin? || s.cons.CFin? || s.cons.CFinR?
    case StoreC => s.cons.CFinW?
    case FinishC(b) => IsInt(b) && (s.cons.CIdle? || s.cons.CWin?)
  }

  function DoLoadP(s: State): State
    requires Enabled(s, LoadP)
  {
    match s.prod
    case PIdle => s.(prod := PStart(s.readDone, s.r))
    case PWin(_, _, _) => s.(prod := PStart(s.readDone, s.r))
    case PStart(read, ro) => s.(prod := PWin(read, s.writeDone, ro))
    case PFin(b) => s.(prod := PFinR(b, s.readDone, s.r))
    case PFinR(b, read, ro) => s.(prod := PFinW(b, read, s.writeDone, ro))
  }

  function DoStoreP(s: State): State
    requires Enabled(s, StoreP)
  {
    var p := s.prod;
    if U64(p.b) > WriteBytes(p.read, p.write) then s.(prod := PExit)
    else s.(writeDone := (p.write + U64(p.b)) % M, w := s.w + U64(p.b), prod := PIdle)
  }

  function DoLoadC(s: State): State
    requires Enabled(s, LoadC)
  {
    match s.cons
    case CIdle => s.(cons := CStart(s.readDone))
    case CWin(_, _, _) => s.(cons := CStart(s.readDone))
    case CStart(read) => s.(cons := CWin(read, s.writeDone, s.w))
    case CFin(b) => s.(cons := CFinR(b, s.readDone))
    case CFinR(b, read) => s.(cons := CFinW(b, read, s.writeDone, s.w))
  }

  /** finish_read has two tests; the second compares with the whole counter. */
  function DoStoreC(s: State): State
    requires Enabled(s, StoreC)
  {
    var c := s.cons;
    if U64(c.b) > ReadBytes(c.read, c.write) || U64(c.b) > c.write then s.(cons := CIdle)
    else s.(readDone := (c.read + U64(c.b)) % M, r := s.r + U64(c.b), cons := CIdle)
  }

  function Do(s: State, st: Step): State
    requires Enabled(s, st)
  {
    match st
    case LoadP => DoLoadP(s)
    case StoreP => DoStoreP(s)
    case FinishP(b) => s.(prod := PFin(b))
    case LoadC => DoLoadC(s)
    case StoreC => DoStoreC(s)
    case FinishC(b) => s.(cons := CFin(b))
  }

  // ---- the invariant ----

  predicate Near(r: int, w: int) { 0 <= r <= w <= r + SIZE }

  ghost predicate ProdOk(s: State) {
    match s.prod
    case PStart(read, ro) => read == ro % M && ro <= s.r && Near(ro, s.w)
    case PWin(read, write, ro) => read == ro % M && ro <= s.r && Near(ro, s.w) && write == s.writeDone
    case PFin(b) => IsInt(b)
    case PFinR(b, read, ro) => IsInt(b) && read == ro % M && ro <= s.r && Near(ro, s.w)
    case PFinW(b, read, write, ro) => IsInt(b) && read == ro % M && ro <= s.r && Near(ro, s.w) && write == s.writeDone
    case _ => true
  }

  ghost predicate ConsOk(s: State) {
    match s.cons
    case CStart(read) => read == s.readDone
    case CWin(read, write, wo) => read == s.readDone && write == wo % M && Near(s.r, wo) && wo <= s.w
    case CFin(b) => IsInt(b)
    case CFinR(b, read) => IsInt(b) && read == s.readDone
    case CFinW(b, read, write, wo) => IsInt(b) && read == s.readDone && write == wo % M && Near(s.r, wo) && wo <= s.w
    case _ => true
  }

  ghost predicate Inv(s: State) {
    && Near(s.r, s.w) && s.readDone == s.r % M && s.writeDone == s.w % M
    && ProdOk(s) && ConsOk(s)
  }

  function Start(): State { State(0, 0, 0, 0, PIdle, CIdle) }

  /** uint64 subtraction of two counters that are close gives their true distance. */
  lemma SubExact(r: nat, w: nat)
    requires r <= w < r + M
    ensures Sub(w % M, r % M) == w - r
  {
    var a, b := r / M, w / M;
    assert r == M * a + r % M && w == M * b + w % M;
    assert b == a || b == a + 1;
    if b == a {
      assert w % M - r % M == w - r;
    } else {
      assert w % M - r % M == w - r - M;
      SubWrap(w - r);
    }
  }

  lemma SubWrap(d: int)
    requires 0 <= d < M
    ensures (d - M) % M == d
  {
  }

  lemma AddExact(w: nat, b: nat)
    ensures (w % M + b) % M == (w + b) % M
  {
    var q := w / M;
    assert w == M * q + w % M;
    ModAdd(q, w % M + b);
  }

  lemma {:induction false} ModAdd(q: nat, x: nat)
    ensures (M * q + x) % M == x % M
    decreases q
  {
    if q > 0 {
      ModAdd(q - 1, x);
      assert M * q + x == M * (q - 1) + x + M;
    }
  }

  /** The granted write window is what is free, the granted read window what is published. */
  lemma BytesExact(r: nat, w: nat)
    requires Near(r, w)
    ensures WriteBytes(r % M, w % M) == r + SIZE - w && ReadBytes(r % M, w % M) == w - r
  {
    SubExact(r, w);
  }

  lemma SmallInt(b: int)
    requires IsInt(b)
    ensures U64(b) == if b >= 0 then b else b + M
  {
  }

  lemma StoreInv(s: State, st: Step)
    requires Inv(s) && Enabled(s, st) && (st.StoreP? || st.StoreC?)
    ensures Inv(Do(s, st))
    ensures st.StoreP? ==>
      if 0 <= s.prod.b <= s.prod.ro + SIZE - s.w then Do(s, st).prod.PIdle? && Do(s, st).w == s.w + s.prod.b
      else Do(s, st).prod.PExit? && Do(s, st).w == s.w
    ensures st.StoreC? ==>
      && Do(s, st).cons.CIdle?
      && Do(s, st).r == s.r + if 0 <= s.cons.b <= s.cons.wo - s.r && s.cons.b <= s.cons.wo % M then s.cons.b else 0
  {
    if st.StoreP? {
      BytesExact(s.prod.ro, s.w);
      SmallInt(s.prod.b);
      AddExact(s.w, U64(s.prod.b));
    } else {
      BytesExact(s.r, s.cons.wo);
      SmallInt(s.cons.b);
      AddExact(s.r, U64(s.cons.b));
    }
  }

  lemma StepInv(s: State, st: Step)
    requires Inv(s) && Enabled(s, st)
    ensures Inv(Do(s, st))
  {
    if st.StoreP? || st.StoreC? { StoreInv(s, st); }
  }

  ghost predicate Run(ss: seq<State>, sts: seq<Step>) {
    |ss| == |sts| + 1 && ss[0] == Start()
    && forall k | 0 <= k < |sts| :: Enabled(ss[k], sts[k]) && ss[k + 1] == Do(ss[k], sts[k])
  }

  /** read_done <= write_done <= read_done + 65536 under every interleaving. */
  lemma {:induction false} RunInv(ss: seq<State>, sts: seq<Step>, k: nat)
    requires Run(ss, sts) && k < |ss|
    ensures Inv(ss[k]) && Near(ss[k].r, ss[k].w)
    decreases k
  {
    if k > 0 {
      RunInv(ss, sts, k - 1);
      StepInv(ss[k - 1], sts[k - 1]);
    }
  }

  /** While the producer holds a window of `bytes` bytes from stream position w, however stale its load of read_done:
      no position in it is unread, and no unread position shares a slot of the ring with it. */
  lemma WriteWindow(s: State, x: nat, y: nat)
    requires Inv(s) && s.prod.PWin?
    ensures var bytes := WriteBytes(s.prod.read, s.prod.write);
      && 0 <= bytes <= SIZE && WriteOffset(s.prod.write) == s.w % SIZE
      && (s.w <= x < s.w + bytes && s.r <= y < s.w ==> x != y && x % SIZE != y % SIZE)
      && s.w + bytes <= s.r + SIZE
  {
    BytesExact(s.prod.ro, s.w);
    OffsetWrap(s.w);
    if s.w <= x < s.r + SIZE && s.r <= y < s.w { NotSameSlot(y, x); }
  }

  lemma NotSameSlot(y: nat, x: nat)
    requires y < x < y + SIZE
    ensures x % SIZE != y % SIZE
  {
  }

  lemma OffsetWrap(w: nat)
    ensures w % M % SIZE == w % SIZE
  {
    var q := w / M;
    assert w == M * q + w % M;
    assert w == SIZE * (281474976710656 * q) + w % M;
    SlotAdd(281474976710656 * q, w % M);
  }

  lemma {:induction false} SlotAdd(q: nat, x: nat)
    ensures (SIZE * q + x) % SIZE == x % SIZE
    decreases q
  {
    if q > 0 {
      SlotAdd(q - 1, x);
      assert SIZE * q + x == SIZE * (q - 1) + x + SIZE;
    }
  }

  /** A start call that is not interrupted, also one that gives up an earlier window: exactly the free space from
      position w on for the producer, exactly the unread bytes for the consumer, and no counter moves. */
  lemma StartGrants(s: State)
    requires Inv(s)
    ensures s.prod.PIdle? || s.prod.PWin? ==>
      var s2 := DoLoadP(DoLoadP(s));
      && s2 == s.(prod := s2.prod) && s2.prod.PWin? && WriteOffset(s2.prod.write) == s.w % SIZE
      && WriteBytes(s2.prod.read, s2.prod.write) == s.r + SIZE - s.w
    ensures s.cons.CIdle? || s.cons.CWin? ==>
      var s2 := DoLoadC(DoLoadC(s));
      s2 == s.(cons := s2.cons) && s2.cons.CWin? && ReadBytes(s2.cons.read, s2.cons.write) == s.w - s.r
  {
    BytesExact(s.r, s.w);
    OffsetWrap(s.w);
  }

  /** While the consumer holds a window of `bytes` bytes from stream position r, every position in it is published
      and not yet released. */
  lemma ReadWindow(s: State, x: nat)
    requires Inv(s) && s.cons.CWin?
    ensures var bytes := ReadBytes(s.cons.read, s.cons.write);
      0 <= bytes <= SIZE && (s.r <= x < s.r + bytes ==> s.r <= x < s.w)
  {
    BytesExact(s.r, s.cons.wo);
  }

  /** The reader's address is its stream position modulo 65536 exactly at the multiples of 65536. */
  lemma ReadOffsetRight(read: nat)
    ensures ReadOffset(read) == read % SIZE <==> read % SIZE == 0
  {
    var x := read % SIZE;
    assert read % 16 == x % 16 by { Low4(read); }
    var q, r := x / 16, x % 16;
    assert x == 16 * q + r;
    if 4096 * r == x {
      assert 16 * q == 4095 * r;
      assert r == 16 * (256 * r - q);
    }
  }

  /** In every reachable state: the consumer is sent to the slot of its stream position exactly when that position is a
      multiple of 65536. */
  lemma ReadAddress(s: State)
    requires Inv(s) && s.cons.CWin?
    ensures ReadOffset(s.cons.read) == s.r % SIZE <==> s.r % SIZE == 0
  {
    OffsetWrap(s.r);
    ReadOffsetRight(s.r % M);
  }

  /** At every other position the first byte of the window has nothing to do with what was stored for it. */
  lemma UnrelatedByte(s: State, phys: seq<int>, v: int)
    requires Inv(s) && s.cons.CWin? && s.r % SIZE != 0 && |phys| == SIZE
    ensures ByteRead(phys[s.r % SIZE := v], s.cons.read, 0) == ByteRead(phys, s.cons.read, 0)
  {
    ReadAddress(s);
    OffsetWrap(s.r);
  }

  lemma StoreEarly(k: nat)
    requires k < SIZE
    ensures DoStoreP(State(0, 0, 0, 0, PFinW(k + 1, 0, 0, 0), CIdle)) == State(0, k + 1, 0, k + 1, PIdle, CIdle)
    ensures DoStoreC(State(0, k + 1, 0, k + 1, PIdle, CFinW(k, 0, k + 1, k + 1))) ==
      State(k, k + 1, k, k + 1, PIdle, CIdle)
    ensures ReadBytes(k, k + 1) == 1
  {
  }

  /** Every other position is reached: the producer publishes k + 1 bytes, the consumer takes k, and the window for
      the one byte that is left, stored in slot k, starts somewhere else, for k = 1 at 4096. */
  lemma ShortRead(k: nat) returns (ss: seq<State>, sts: seq<Step>)
    requires 0 < k < SIZE
    ensures Run(ss, sts)
    ensures var s := ss[|sts|];
      && s.cons.CWin? && s.r == k && s.w == k + 1 && ReadBytes(s.cons.read, s.cons.write) == 1
      && WriteOffset(0) + k == k != ReadOffset(s.cons.read) < SIZE && (k == 1 ==> ReadOffset(s.cons.read) == 4096)
  {
    hide Sub, U64, DoStoreP, DoStoreC, ReadBytes, WriteBytes;
    var s0 := Start();
    var s1 := Do(s0, FinishP(k + 1));
    var s2 := Do(s1, LoadP);
    var s3 := Do(s2, LoadP);
    var s4 := Do(s3, StoreP);
    StoreEarly(k);
    var s5 := Do(s4, FinishC(k));
    var s6 := Do(s5, LoadC);
    var s7 := Do(s6, LoadC);
    var s8 := Do(s7, StoreC);
    var s9 := Do(s8, LoadC);
    var s10 := Do(s9, LoadC);
    ss := [s0, s1, s2, s3, s4, s5, s6, s7, s8, s9, s10];
    sts := [FinishP(k + 1), LoadP, LoadP, StoreP, FinishC(k), LoadC, LoadC, StoreC, LoadC, LoadC];
    ReadOffsetRight(k);
  }

  lemma Low4(x: nat)
    ensures x % SIZE % 16 == x % 16
  {
  }
}
