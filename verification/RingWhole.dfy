/** The transfer of the rb program can be carried through: a run of the two loops from the start to the last byte. */
module RingWhole {
  import opened RingProto
  import opened RingStream

  /** A piece of a run, in which the producer stores what is at the front of `wbuf`. */
  ghost predicate Piece(ss: seq<Prog>, acts: seq<Act>, wbuf: seq<int>) {
    && |ss| == |acts| + 1 && |wbuf| >= SIZE && (forall k | 0 <= k < |ss| :: |ss[k].phys| == SIZE)
    && (forall k | 0 <= k < |acts| :: Can(ss[k], acts[k]) && ss[k + 1] == Act1(ss[k], acts[k]))
    && forall k | 0 <= k < |acts| && acts[k].CopyW? :: ss[k].kp < SIZE && acts[k].v == wbuf[ss[k].kp]
  }

  lemma Join(a: seq<Prog>, x: seq<Act>, b: seq<Prog>, y: seq<Act>, wbuf: seq<int>)
    returns (ss: seq<Prog>, acts: seq<Act>)
    requires Piece(a, x, wbuf) && Piece(b, y, wbuf) && a[|x|] == b[0]
    ensures ss == a[..|x|] + b && acts == x + y && Piece(ss, acts, wbuf) && ss[0] == a[0] && ss[|acts|] == b[|y|]
  {
    hide Can, Act1;
    ss, acts := a[..|x|] + b, x + y;
    forall k | 0 <= k < |acts|
      ensures Can(ss[k], acts[k]) && ss[k + 1] == Act1(ss[k], acts[k])
      ensures acts[k].CopyW? ==> ss[k].kp < SIZE && acts[k].v == wbuf[ss[k].kp]
    {
      if k < |x| {
        assert ss[k] == a[k] && ss[k + 1] == a[k + 1] && acts[k] == x[k];
      } else {
        assert ss[k] == b[k - |x|] && ss[k + 1] == b[k - |x| + 1] && acts[k] == y[k - |x|];
      }
    }
  }

  lemma None(s: Prog, wbuf: seq<int>)
    requires |s.phys| == SIZE && |wbuf| >= SIZE
    ensures Piece([s], [], wbuf)
  {
  }

  /** One more act. */
  lemma Go(a: seq<Prog>, x: seq<Act>, act: Act, wbuf: seq<int>) returns (ss: seq<Prog>, acts: seq<Act>)
    requires Piece(a, x, wbuf) && Ok(a[|x|]) && Can(a[|x|], act)
    requires act.CopyW? ==> a[|x|].kp < SIZE && act.v == wbuf[a[|x|].kp]
    ensures acts == x + [act] && Piece(ss, acts, wbuf) && ss[0] == a[0]
    ensures Ok(ss[|acts|]) && ss[|acts|] == Act1(a[|x|], act)
  {
    hide Can, Act1, Ok;
    var s := a[|x|];
    ActOk(s, act);
    OkPhys(Act1(s, act));
    var b, y := [s, Act1(s, act)], [act];
    assert Piece(b, y, wbuf);
    ss, acts := Join(a, x, b, y, wbuf);
  }

  lemma OkPhys(s: Prog)
    requires Ok(s)
    ensures |s.phys| == SIZE
  {
    hide RingProto.Inv;
  }

  /** Both sides between windows, with n windows transferred. */
  ghost predicate Between(s: Prog, n: nat) {
    Ok(s) && s.p.prod.PIdle? && s.p.cons.CIdle? && s.totalW == s.totalR == n * SIZE
  }

  /** The producer in a whole window with its first kp bytes stored. */
  ghost predicate Storing(s: Prog, n: nat, k: nat) {
    && Ok(s) && s.p.prod.PWin? && s.p.cons.CIdle? && s.totalW == s.totalR == n * SIZE && s.kp == k
    && BytesW(s) == SIZE
  }

  lemma OpenWrite(a: seq<Prog>, x: seq<Act>, wbuf: seq<int>, n: nat) returns (ss: seq<Prog>, acts: seq<Act>)
    requires Piece(a, x, wbuf) && Between(a[|x|], n) && n < 160
    ensures Piece(ss, acts, wbuf) && ss[0] == a[0] && Storing(ss[|acts|], n, 0)
  {
    hide Ok, RingProto.Inv, Sub, ReadBytes, WriteBytes;
    var s := a[|x|];
    assert s.totalW < TOTAL;
    ss, acts := Go(a, x, LoadW, wbuf);
    ss, acts := Go(ss, acts, LoadW, wbuf);
    var u := ss[|acts|];
    Level(s);
    WindowW(u);
    Opened(s, u);
  }

  lemma Level(s: Prog)
    requires Ok(s) && s.p.prod.PIdle? && s.p.cons.CIdle?
    ensures s.p.w == s.totalW && s.p.r == s.totalR
  {
    hide RingProto.Inv;
  }

  lemma Opened(s: Prog, u: Prog)
    requires Ok(s) && s.p.prod.PIdle? && s.p.cons.CIdle? && s.totalW == s.totalR
    requires Ok(u) && u.p == s.p.(prod := PWin(s.p.readDone, s.p.writeDone, s.p.r))
    ensures BytesW(u) == SIZE
  {
    Level(s);
    WindowW(u);
  }

  lemma {:induction false} StoreAll(a: seq<Prog>, x: seq<Act>, wbuf: seq<int>, n: nat, k: nat)
    returns (ss: seq<Prog>, acts: seq<Act>)
    requires Piece(a, x, wbuf) && k <= SIZE && Storing(a[|x|], n, k)
    ensures Piece(ss, acts, wbuf) && ss[0] == a[0] && Storing(ss[|acts|], n, SIZE)
    decreases SIZE - k
  {
    hide Ok, ReadBytes, WriteBytes;
    ss, acts := a, x;
    if k < SIZE {
      ss, acts := Go(a, x, CopyW(wbuf[k]), wbuf);
      ss, acts := StoreAll(ss, acts, wbuf, n, k + 1);
    }
  }

  /** The producer has published window n. */
  ghost predicate Published(s: Prog, n: nat) {
    Ok(s) && s.p.prod.PIdle? && s.p.cons.CIdle? && s.totalW == (n + 1) * SIZE && s.totalR == n * SIZE
  }

  lemma CloseWrite(a: seq<Prog>, x: seq<Act>, wbuf: seq<int>, n: nat) returns (ss: seq<Prog>, acts: seq<Act>)
    requires Piece(a, x, wbuf) && Storing(a[|x|], n, SIZE)
    ensures Piece(ss, acts, wbuf) && ss[0] == a[0] && Published(ss[|acts|], n)
  {
    hide Ok, ReadBytes, WriteBytes, DoStoreP;
    ss, acts := Go(a, x, FinishW, wbuf);
    ss, acts := Go(ss, acts, LoadW, wbuf);
    ss, acts := Go(ss, acts, LoadW, wbuf);
    var u := ss[|acts|];
    ss, acts := Go(ss, acts, StoreW, wbuf);
    Stored1(u);
  }

  lemma Stored1(u: Prog)
    requires Ok(u) && u.p.prod.PFinW?
    ensures var s := Act1(u, StoreW);
      s.p.prod.PIdle? && s.p.cons == u.p.cons && s.totalW == u.totalW && s.totalR == u.totalR
  {
    StoreWOk(u);
  }

  /** The consumer in a whole window with its first k bytes copied. */
  ghost predicate Copying(s: Prog, n: nat, k: nat) {
    && Ok(s) && s.p.prod.PIdle? && s.p.cons.CWin? && s.totalW == (n + 1) * SIZE && s.totalR == n * SIZE && s.kc == k
    && BytesR(s) == SIZE
  }

  lemma OpenRead(a: seq<Prog>, x: seq<Act>, wbuf: seq<int>, n: nat) returns (ss: seq<Prog>, acts: seq<Act>)
    requires Piece(a, x, wbuf) && Published(a[|x|], n) && n < 160
    ensures Piece(ss, acts, wbuf) && ss[0] == a[0] && Copying(ss[|acts|], n, 0)
  {
    hide Ok, RingProto.Inv, Sub, ReadBytes, WriteBytes;
    var s := a[|x|];
    assert s.totalR < TOTAL;
    ss, acts := Go(a, x, LoadR, wbuf);
    ss, acts := Go(ss, acts, LoadR, wbuf);
    var u := ss[|acts|];
    ReadOpened(s, u);
  }

  lemma ReadOpened(s: Prog, u: Prog)
    requires Ok(s) && s.p.prod.PIdle? && s.p.cons.CIdle? && s.totalW == s.totalR + SIZE
    requires Ok(u) && u.p == s.p.(cons := CWin(s.p.readDone, s.p.writeDone, s.p.w))
    ensures BytesR(u) == SIZE
  {
    Level(s);
    WindowR(u);
  }

  lemma {:induction false} CopyAll(a: seq<Prog>, x: seq<Act>, wbuf: seq<int>, n: nat, k: nat)
    returns (ss: seq<Prog>, acts: seq<Act>)
    requires Piece(a, x, wbuf) && k <= SIZE && Copying(a[|x|], n, k)
    ensures Piece(ss, acts, wbuf) && ss[0] == a[0] && Copying(ss[|acts|], n, SIZE)
    decreases SIZE - k
  {
    hide Ok, ReadBytes, WriteBytes, ByteRead;
    ss, acts := a, x;
    if k < SIZE {
      ss, acts := Go(a, x, CopyR, wbuf);
      ss, acts := CopyAll(ss, acts, wbuf, n, k + 1);
    }
  }

  lemma CloseRead(a: seq<Prog>, x: seq<Act>, wbuf: seq<int>, n: nat) returns (ss: seq<Prog>, acts: seq<Act>)
    requires Piece(a, x, wbuf) && Copying(a[|x|], n, SIZE)
    ensures Piece(ss, acts, wbuf) && ss[0] == a[0] && Between(ss[|acts|], n + 1)
  {
    hide Ok, ReadBytes, WriteBytes, DoStoreC;
    ss, acts := Go(a, x, FinishR, wbuf);
    ss, acts := Go(ss, acts, LoadR, wbuf);
    ss, acts := Go(ss, acts, LoadR, wbuf);
    var u := ss[|acts|];
    ss, acts := Go(ss, acts, StoreR, wbuf);
    Released(u);
  }

  lemma Released(u: Prog)
    requires Ok(u) && u.p.cons.CFinW?
    ensures var s := Act1(u, StoreR);
      s.p.cons.CIdle? && s.p.prod == u.p.prod && s.totalW == u.totalW && s.totalR == u.totalR
  {
  }

  /** n windows, one after the other. */
  lemma {:induction false} Windows(phys: seq<int>, wbuf: seq<int>, n: nat) returns (ss: seq<Prog>, acts: seq<Act>)
    requires |phys| == SIZE && |wbuf| >= SIZE && n <= 160
    ensures Piece(ss, acts, wbuf) && ss[0] == Begin(phys) && Between(ss[|acts|], n)
  {
    hide Ok;
    if n == 0 {
      ss, acts := [Begin(phys)], [];
      BeginOk(phys);
      None(Begin(phys), wbuf);
    } else {
      hide Between, Storing, Published, Copying;
      ss, acts := Windows(phys, wbuf, n - 1);
      ss, acts := OpenWrite(ss, acts, wbuf, n - 1);
      ss, acts := StoreAll(ss, acts, wbuf, n - 1, 0);
      ss, acts := CloseWrite(ss, acts, wbuf, n - 1);
      ss, acts := OpenRead(ss, acts, wbuf, n - 1);
      ss, acts := CopyAll(ss, acts, wbuf, n - 1, 0);
      ss, acts := CloseRead(ss, acts, wbuf, n - 1);
    }
  }

  lemma LoopsDone(s: Prog, a: Act)
    requires s.p.prod.PIdle? && s.p.cons.CIdle? && s.totalW == s.totalR == TOTAL
    ensures !Can(s, a)
  {
  }

  /** A run that ends with both loops done: the consumer has all 10 MB, byte x of them being write_buf[x % 65536]. */
  lemma Transfer(phys: seq<int>, wbuf: seq<int>) returns (ss: seq<Prog>, acts: seq<Act>)
    requires |phys| == SIZE && |wbuf| >= SIZE
    ensures RingStream.Run(ss, acts) && ss[0] == Begin(phys) && FromFront(ss, acts, wbuf)
    ensures var s := ss[|acts|];
      && s.p.prod.PIdle? && s.p.cons.CIdle? && s.totalW == s.totalR == |s.rbuf| == TOTAL && s.rbuf == s.stream
      && (forall x | 0 <= x < TOTAL :: s.rbuf[x] == wbuf[x % SIZE])
      && forall a :: !Can(s, a)
  {
    hide Ok, Can, Act1;
    ss, acts := Windows(phys, wbuf, 160);
    var s := ss[|acts|];
    EndToEnd(ss, acts, |acts|);
    forall a ensures !Can(s, a) { LoopsDone(s, a); }
    forall x | 0 <= x < TOTAL ensures s.rbuf[x] == wbuf[x % SIZE] {
      ReadsFront(ss, acts, wbuf, |acts|, x);
    }
  }
}
