/** The two loops of the rb program over the ring: start, copy the whole window byte by byte, finish.
    The 32 virtual pages show 65536 bytes of memory twice, so offset x stands for slot x % 65536. */
module RingStream {
  import opened RingProto

  const TOTAL: int := 10 * 1024 * 1024

  /** `stream` is every byte the producer has stored, `rbuf` every byte the consumer has copied;
      kp and kc count the bytes copied in the current window. */
  datatype Prog = Prog(p: State, phys: seq<int>, stream: seq<int>, totalW: nat, kp: nat, rbuf: seq<int>, totalR: nat,
                       kc: nat)

  datatype Act =
    | LoadW                  // a load of the producer
    | CopyW(v: int)          // the producer stores byte v
    | FinishW                // total_write += bytes; ringbuf_finish_write(rd, bytes)
    | StoreW
    | LoadR
    | CopyR
    | FinishR
    | StoreR

  function BytesW(s: Prog): int
    requires s.p.prod.PWin?
  {
    WriteBytes(s.p.prod.read, s.p.prod.write)
  }

  function BytesR(s: Prog): int
    requires s.p.cons.CWin?
  {
    ReadBytes(s.p.cons.read, s.p.cons.write)
  }

  predicate Can(s: Prog, a: Act) {
    match a
    case LoadW =>
      RingProto.Enabled(s.p, LoadP) && (s.p.prod.PIdle? ==> s.totalW < TOTAL) && (s.p.prod.PWin? ==> BytesW(s) == 0)
    case CopyW(_) => s.p.prod.PWin? && s.kp < BytesW(s)
    case FinishW => s.p.prod.PWin? && 0 < BytesW(s) == s.kp && IsInt(BytesW(s))
    case StoreW => s.p.prod.PFinW?
    case LoadR =>
      RingProto.Enabled(s.p, LoadC) && (s.p.cons.CIdle? ==> s.totalR < TOTAL) && (s.p.cons.CWin? ==> BytesR(s) == 0)
    case CopyR => s.p.cons.CWin? && s.kc < BytesR(s)
    case FinishR => s.p.cons.CWin? && 0 < BytesR(s) == s.kc && IsInt(BytesR(s))
    case StoreR => s.p.cons.CFinW?
  }

  function Act1(s: Prog, a: Act): Prog
    requires Can(s, a) && |s.phys| == SIZE
  {
    match a
    case LoadW => s.(p := DoLoadP(s.p), kp := 0)
    case CopyW(v) => s.(phys := s.phys[(WriteOffset(s.p.prod.write) + s.kp) % SIZE := v], stream := s.stream + [v],
                        kp := s.kp + 1)
    case FinishW => s.(totalW := s.totalW + BytesW(s), p := s.p.(prod := PFin(BytesW(s))), kp := 0)
    case StoreW => s.(p := DoStoreP(s.p))
    case LoadR => s.(p := DoLoadC(s.p), kc := 0)
    case CopyR => s.(rbuf := s.rbuf + [ByteRead(s.phys, s.p.cons.read, s.kc)], kc := s.kc + 1)
    case FinishR => s.(totalR := s.totalR + BytesR(s), p := s.p.(cons := CFin(BytesR(s))), kc := 0)
    case StoreR => s.(p := DoStoreC(s.p))
  }

  // ---- the invariant ----

  /** Both counters, and the values loaded earlier, are multiples of 65536. */
  ghost predicate Whole(s: State) {
    && s.r % SIZE == 0 && s.w % SIZE == 0
    && (s.prod.PStart? || s.prod.PWin? || s.prod.PFinR? || s.prod.PFinW? ==> s.prod.ro % SIZE == 0)
    && (s.cons.CWin? || s.cons.CFinW? ==> s.cons.wo % SIZE == 0)
  }

  predicate FinishingW(s: State) { s.prod.PFin? || s.prod.PFinR? || s.prod.PFinW? }

  predicate FinishingR(s: State) { s.cons.CFin? || s.cons.CFinR? || s.cons.CFinW? }

  /** The producer: whole windows, total_write in step with write_done, and the stream reaches up to what is stored. */
  ghost predicate ProdSide(s: Prog) {
    && !s.p.prod.PExit? && s.p.w <= TOTAL
    && (s.kp > 0 ==> s.p.prod.PWin? && s.kp <= SIZE && s.p.prod.ro == s.p.w && s.p.r == s.p.w)
    && (if FinishingW(s.p)
        then s.p.prod.b == SIZE && s.p.r == s.p.w && s.totalW == s.p.w + SIZE <= TOTAL && |s.stream| == s.p.w + SIZE
        else s.totalW == s.p.w && |s.stream| == s.p.w + s.kp)
    && (s.p.prod.PStart? || s.p.prod.PWin? ==> s.p.w < TOTAL)
    && (s.p.prod.PFinR? || s.p.prod.PFinW? ==> s.p.prod.ro == s.p.w)
  }

  /** The consumer: what it has copied is the stream, up to where it stands. */
  ghost predicate ConsSide(s: Prog) {
    && (s.kc > 0 ==> s.p.cons.CWin? && s.kc <= SIZE && s.p.cons.wo == s.p.r + SIZE)
    && (if FinishingR(s.p) then s.p.cons.b == SIZE && s.totalR == s.p.r + SIZE <= s.p.w else s.totalR == s.p.r)
    && (s.p.cons.CFinW? ==> s.p.cons.wo == s.p.r + SIZE)
    && |s.rbuf| == s.totalR + s.kc <= |s.stream| && s.rbuf == s.stream[..|s.rbuf|]
  }

  /** Memory holds every stored byte that is not yet released. */
  ghost predicate Stored(s: Prog) {
    && |s.phys| == SIZE && s.p.r <= |s.stream| <= s.p.r + SIZE
    && forall x | s.p.r <= x < |s.stream| :: s.phys[x % SIZE] == s.stream[x]
  }

  ghost predicate Ok(s: Prog) {
    RingProto.Inv(s.p) && Whole(s.p) && ProdSide(s) && ConsSide(s) && Stored(s)
  }

  function Begin(phys: seq<int>): Prog {
    Prog(RingProto.Start(), phys, [], 0, 0, [], 0, 0)
  }

  lemma BeginOk(phys: seq<int>)
    requires |phys| == SIZE
    ensures Ok(Begin(phys))
  {
  }

  /** Multiples of 65536 at most 65536 apart are equal or one window apart. */
  lemma Aligned(a: nat, b: nat)
    requires a % SIZE == 0 && b % SIZE == 0 && a <= b <= a + SIZE
    ensures b == a || b == a + SIZE
  {
  }

  /** So a window is empty or whole. */
  lemma WindowW(s: Prog)
    requires Ok(s) && s.p.prod.PWin?
    ensures BytesW(s) == s.p.prod.ro + SIZE - s.p.w
    ensures BytesW(s) == 0 || (BytesW(s) == SIZE && s.p.prod.ro == s.p.w && s.p.r == s.p.w)
    ensures WriteOffset(s.p.prod.write) == 0
  {
    BytesExact(s.p.prod.ro, s.p.w);
    Aligned(s.p.prod.ro, s.p.w);
    OffsetWrap(s.p.w);
  }

  lemma WindowR(s: Prog)
    requires Ok(s) && s.p.cons.CWin?
    ensures BytesR(s) == s.p.cons.wo - s.p.r
    ensures BytesR(s) == 0 || (BytesR(s) == SIZE && s.p.cons.wo == s.p.r + SIZE)
    ensures ReadOffset(s.p.cons.read) == 0
  {
    BytesExact(s.p.r, s.p.cons.wo);
    Aligned(s.p.r, s.p.cons.wo);
    OffsetWrap(s.p.r);
    Low4(s.p.r % M);
  }

  lemma InWindow(a: nat, k: nat)
    requires a % SIZE == 0 && k < SIZE
    ensures (a + k) % SIZE == k
  {
  }

  lemma AlignedBelow(w: nat)
    requires w % SIZE == 0 && w < TOTAL
    ensures w + SIZE <= TOTAL
  {
    assert TOTAL == 160 * SIZE;
  }

  lemma LoadWOk(s: Prog)
    requires Ok(s) && Can(s, LoadW)
    ensures Ok(Act1(s, LoadW))
  {
    hide Sub, WriteBytes, ReadBytes;
    if s.p.prod.PWin? { WindowW(s); }
    StepInv(s.p, LoadP);
  }

  lemma StoreByte(s: Prog, v: int)
    requires Ok(s) && Can(s, CopyW(v))
    ensures Stored(Act1(s, CopyW(v)))
  {
    WindowW(s);
    hide RingProto.Inv, Sub, ReadBytes, WriteBytes, WriteOffset;
    var t := Act1(s, CopyW(v));
    InWindow(s.p.w, s.kp);
    forall x | s.p.r <= x < |t.stream| ensures t.phys[x % SIZE] == t.stream[x] {
      if x < |s.stream| { NotSameSlot(x, s.p.w + s.kp); }
    }
  }

  /** A stored byte lands in a slot that holds nothing unread. */
  lemma CopyWOk(s: Prog, v: int)
    requires Ok(s) && Can(s, CopyW(v))
    ensures Ok(Act1(s, CopyW(v)))
  {
    WindowW(s);
    StoreByte(s, v);
    hide RingProto.Inv, Sub, ReadBytes, WriteBytes, ReadOffset, WriteOffset, Stored;
    assert Act1(s, CopyW(v)).stream[..|s.rbuf|] == s.stream[..|s.rbuf|];
  }

  lemma FinishWOk(s: Prog)
    requires Ok(s) && Can(s, FinishW)
    ensures Ok(Act1(s, FinishW))
  {
    hide Sub, ReadBytes;
    WindowW(s);
    AlignedBelow(s.p.w);
    StepInv(s.p, FinishP(BytesW(s)));
  }

  lemma StoreWOk(s: Prog)
    requires Ok(s) && Can(s, StoreW)
    ensures Ok(Act1(s, StoreW))
  {
    hide Sub, WriteBytes, ReadBytes;
    StoreInv(s.p, StoreP);
    Aligned(s.p.prod.ro, s.p.w);
    SmallInt(s.p.prod.b);
    assert (s.p.w + SIZE) % SIZE == 0;
  }

  lemma LoadROk(s: Prog)
    requires Ok(s) && Can(s, LoadR)
    ensures Ok(Act1(s, LoadR))
  {
    hide Sub, WriteBytes, ReadBytes;
    if s.p.cons.CWin? { WindowR(s); }
    StepInv(s.p, LoadC);
  }

  lemma NextByte(s: Prog)
    requires Ok(s) && Can(s, CopyR)
    ensures s.p.r + s.kc < |s.stream| && ByteRead(s.phys, s.p.cons.read, s.kc) == s.stream[s.p.r + s.kc]
  {
    WindowR(s);
    hide RingProto.Inv, Sub, ReadBytes, WriteBytes, ReadOffset, WriteOffset;
    InWindow(s.p.r, s.kc);
  }

  /** A copied byte is the next byte of the stream. */
  lemma CopyROk(s: Prog)
    requires Ok(s) && Can(s, CopyR)
    ensures Ok(Act1(s, CopyR))
  {
    WindowR(s);
    NextByte(s);
    hide RingProto.Inv, Sub, ReadBytes, WriteBytes, ReadOffset, WriteOffset, ByteRead, Stored;
    var x := s.p.r + s.kc;
    assert Stored(Act1(s, CopyR)) by { StoredFrame(s, Act1(s, CopyR)); }
    assert s.stream[..x + 1] == s.stream[..x] + [s.stream[x]];
  }

  lemma StoredFrame(s: Prog, t: Prog)
    requires Stored(s) && t.phys == s.phys && t.p == s.p && t.stream == s.stream
    ensures Stored(t)
  {
  }

  lemma FinishROk(s: Prog)
    requires Ok(s) && Can(s, FinishR)
    ensures Ok(Act1(s, FinishR))
  {
    hide Sub, WriteBytes;
    WindowR(s);
    StepInv(s.p, FinishC(BytesR(s)));
  }

  lemma StoreROk(s: Prog)
    requires Ok(s) && Can(s, StoreR)
    ensures Ok(Act1(s, StoreR))
  {
    hide Sub, WriteBytes, ReadBytes;
    StoreInv(s.p, StoreC);
    assert s.p.cons.wo % M == s.p.cons.wo;
    assert (s.p.r + SIZE) % SIZE == 0;
  }

  lemma ActOk(s: Prog, a: Act)
    requires Ok(s) && Can(s, a)
    ensures Ok(Act1(s, a))
  {
    match a
    case LoadW => LoadWOk(s);
    case CopyW(v) => CopyWOk(s, v);
    case FinishW => FinishWOk(s);
    case StoreW => StoreWOk(s);
    case LoadR => LoadROk(s);
    case CopyR => CopyROk(s);
    case FinishR => FinishROk(s);
    case StoreR => StoreROk(s);
  }

  ghost predicate Run(ss: seq<Prog>, acts: seq<Act>) {
    && |ss| == |acts| + 1 && |ss[0].phys| == SIZE && ss[0] == Begin(ss[0].phys)
    && (forall k | 0 <= k < |ss| :: |ss[k].phys| == SIZE)
    && forall k | 0 <= k < |acts| :: Can(ss[k], acts[k]) && ss[k + 1] == Act1(ss[k], acts[k])
  }

  lemma {:induction false} RunOk(ss: seq<Prog>, acts: seq<Act>, k: nat)
    requires Run(ss, acts) && k < |ss|
    ensures Ok(ss[k])
    decreases k
  {
    if k == 0 {
      BeginOk(ss[0].phys);
    } else {
      RunOk(ss, acts, k - 1);
      ActOk(ss[k - 1], acts[k - 1]);
    }
  }

  /** In every reachable state the counters are multiples of 65536 and the consumer's bytes are the first bytes of
      the stream; the producer never runs into exit(1), and once the consumer has finished it has the whole stream. */
  lemma EndToEnd(ss: seq<Prog>, acts: seq<Act>, k: nat)
    requires Run(ss, acts) && k < |ss|
    ensures ss[k].p.r % SIZE == 0 && ss[k].p.w % SIZE == 0 && !ss[k].p.prod.PExit?
    ensures ss[k].rbuf <= ss[k].stream
    ensures ss[k].p.cons.CIdle? && ss[k].totalR >= TOTAL ==> |ss[k].rbuf| == TOTAL && ss[k].rbuf == ss[k].stream
  {
    RunOk(ss, acts, k);
  }

  /** The rb program always copies from the front of write_buf, so position x of the stream is write_buf[x % 65536]. */
  ghost predicate FromFront(ss: seq<Prog>, acts: seq<Act>, wbuf: seq<int>)
    requires Run(ss, acts) && |wbuf| >= SIZE
  {
    forall k | 0 <= k < |acts| && acts[k].CopyW? :: ss[k].kp < |wbuf| ==> acts[k].v == wbuf[ss[k].kp]
  }

  /** The stream only grows, and by the byte just stored. */
  lemma FrontStep(s: Prog, a: Act, x: nat)
    requires Ok(s) && Can(s, a) && x < |Act1(s, a).stream|
    ensures x < |s.stream| ==> Act1(s, a).stream[x] == s.stream[x]
    ensures x >= |s.stream| ==> a.CopyW? && s.kp < SIZE && x % SIZE == s.kp && Act1(s, a).stream[x] == a.v
  {
    if x >= |s.stream| {
      WindowW(s);
      assert (s.p.w + s.kp) % SIZE == s.kp;
    }
  }

  lemma {:induction false} FrontStream(ss: seq<Prog>, acts: seq<Act>, wbuf: seq<int>, k: nat, x: nat)
    requires Run(ss, acts) && |wbuf| >= SIZE && FromFront(ss, acts, wbuf) && k < |ss| && x < |ss[k].stream|
    ensures ss[k].stream[x] == wbuf[x % SIZE]
    decreases k
  {
    hide Ok, Act1, Can;
    if k > 0 {
      RunOk(ss, acts, k - 1);
      if x < |ss[k - 1].stream| { FrontStream(ss, acts, wbuf, k - 1, x); }
      FrontStep(ss[k - 1], acts[k - 1], x);
    }
  }

  lemma ReadsFront(ss: seq<Prog>, acts: seq<Act>, wbuf: seq<int>, k: nat, x: nat)
    requires Run(ss, acts) && |wbuf| >= SIZE && FromFront(ss, acts, wbuf) && k < |ss| && x < |ss[k].rbuf|
    ensures ss[k].rbuf[x] == wbuf[x % SIZE]
  {
    EndToEnd(ss, acts, k);
    FrontStream(ss, acts, wbuf, k, x);
  }
}
