/** What finish_read's second test does when the 64-bit write counter wraps: the ring stops for good. */
module RingJam {
  import opened RingProto

  /** Two idle sides with everything read, after n whole windows. */
  function Idle(n: nat): State { State(n * SIZE, n * SIZE, n * SIZE, n * SIZE, PIdle, CIdle) }

  const WINDOWS: nat := 281474976710656       // M / SIZE

  ghost predicate RunFrom(ss: seq<State>, sts: seq<Step>) {
    |ss| == |sts| + 1 && forall k | 0 <= k < |sts| :: Enabled(ss[k], sts[k]) && ss[k + 1] == Do(ss[k], sts[k])
  }

  lemma Join(a: seq<State>, x: seq<Step>, b: seq<State>, y: seq<Step>)
    requires RunFrom(a, x) && RunFrom(b, y) && a[|x|] == b[0]
    ensures RunFrom(a[..|x|] + b, x + y) && (a[..|x|] + b)[0] == a[0] && (a[..|x|] + b)[|x + y|] == b[|y|]
  {
    hide Enabled, Do;
    var s, z := a[..|x|] + b, x + y;
    forall k | 0 <= k < |z| ensures Enabled(s[k], z[k]) && s[k + 1] == Do(s[k], z[k]) {
      if k < |x| {
        assert s[k] == a[k] && s[k + 1] == a[k + 1];
      } else {
        assert s[k] == b[k - |x|] && s[k + 1] == b[k - |x| + 1];
      }
    }
  }

  /** The producer fills and publishes a whole window. */
  lemma Publish(n: nat) returns (ss: seq<State>, sts: seq<Step>)
    requires n < WINDOWS
    ensures RunFrom(ss, sts) && ss[0] == Idle(n)
    ensures ss[|sts|] == Idle(n).(writeDone := (n + 1) * SIZE % M, w := (n + 1) * SIZE)
  {
    hide Sub, U64, DoStoreP, WriteBytes;
    var s0 := Idle(n);
    var s1 := Do(s0, FinishP(SIZE));
    var s2 := Do(s1, LoadP);
    var s3 := Do(s2, LoadP);
    var s4 := Do(s3, StoreP);
    StoreWindow(n);
    ss, sts := [s0, s1, s2, s3, s4], [FinishP(SIZE), LoadP, LoadP, StoreP];
  }

  lemma StoreWindow(n: nat)
    requires n < WINDOWS
    ensures DoStoreP(Idle(n).(prod := PFinW(SIZE, n * SIZE, n * SIZE, n * SIZE)))
         == Idle(n).(writeDone := (n + 1) * SIZE % M, w := (n + 1) * SIZE)
  {
    assert Sub(n * SIZE, n * SIZE) == 0;
  }

  /** The consumer releases it, unless the write counter has just become 0. */
  lemma Release(n: nat) returns (ss: seq<State>, sts: seq<Step>)
    requires n + 1 < WINDOWS
    ensures RunFrom(ss, sts) && ss[0] == Idle(n).(writeDone := (n + 1) * SIZE % M, w := (n + 1) * SIZE)
    ensures ss[|sts|] == Idle(n + 1)
  {
    hide Sub, U64, DoStoreC, ReadBytes;
    var s0 := Idle(n).(writeDone := (n + 1) * SIZE % M, w := (n + 1) * SIZE);
    var s1 := Do(s0, FinishC(SIZE));
    var s2 := Do(s1, LoadC);
    var s3 := Do(s2, LoadC);
    var s4 := Do(s3, StoreC);
    ReleaseWindow(n);
    ss, sts := [s0, s1, s2, s3, s4], [FinishC(SIZE), LoadC, LoadC, StoreC];
  }

  lemma ReleaseWindow(n: nat)
    requires n + 1 < WINDOWS
    ensures (n + 1) * SIZE % M == (n + 1) * SIZE
    ensures var s := Idle(n).(writeDone := (n + 1) * SIZE, w := (n + 1) * SIZE,
                              cons := CFinW(SIZE, n * SIZE, (n + 1) * SIZE, (n + 1) * SIZE));
      DoStoreC(s) == Idle(n + 1)
  {
    assert Sub((n + 1) * SIZE, n * SIZE) == SIZE;
  }

  lemma {:induction false} Reach(n: nat) returns (ss: seq<State>, sts: seq<Step>)
    requires n < WINDOWS
    ensures RunFrom(ss, sts) && ss[0] == Start() && ss[|sts|] == Idle(n)
  {
    if n == 0 {
      ss, sts := [Start()], [];
    } else {
      var a, x := Reach(n - 1);
      var b, y := Publish(n - 1);
      Join(a, x, b, y);
      var ab, xy := a[..|x|] + b, x + y;
      var c, z := Release(n - 1);
      Join(ab, xy, c, z);
      ss, sts := ab[..|xy|] + c, xy + z;
    }
  }

  /** The counters stand one window apart across the wrap, and so does everything the two sides have loaded. */
  ghost predicate Jammed(s: State) {
    && s.r == M - SIZE && s.w == M && s.readDone == M - SIZE && s.writeDone == 0
    && (match s.prod
        case PStart(read, ro) => read == M - SIZE
        case PWin(read, write, ro) => read == M - SIZE && write == 0
        case PFinR(b, read, ro) => read == M - SIZE
        case PFinW(b, read, write, ro) => read == M - SIZE && write == 0
        case _ => true)
    && (match s.cons
        case CStart(read) => read == M - SIZE
        case CWin(read, write, wo) => read == M - SIZE && write == 0
        case CFinR(b, read) => read == M - SIZE
        case CFinW(b, read, write, wo) => read == M - SIZE && write == 0
        case _ => true)
  }

  /** After 2^64 bytes of whole windows, all but the last window read: a window of 65536 bytes is published and
      granted to the consumer, none to the producer. */
  lemma JamReached() returns (ss: seq<State>, sts: seq<Step>)
    ensures Run(ss, sts) && Jammed(ss[|sts|])
    ensures ReadBytes(M - SIZE, 0) == SIZE && WriteBytes(M - SIZE, 0) == 0
  {
    var a, x := Reach(WINDOWS - 1);
    var b, y := Publish(WINDOWS - 1);
    Join(a, x, b, y);
    ss, sts := a[..|x|] + b, x + y;
  }

  /** From there no call of either side moves a counter: finish_read refuses every count but 0, although the whole
      window is published, and finish_write exits for every count but 0. */
  lemma JamStep(s: State, st: Step)
    requires Jammed(s) && Enabled(s, st)
    ensures Jammed(Do(s, st))
  {
  }

  lemma {:induction false} JamForever(ss: seq<State>, sts: seq<Step>, k: nat)
    requires RunFrom(ss, sts) && Jammed(ss[0]) && k < |ss|
    ensures ss[k].r == M - SIZE && ss[k].w == M && Jammed(ss[k])
  {
    hide Enabled, Do;
    if k > 0 {
      JamForever(ss, sts, k - 1);
      JamStep(ss[k - 1], sts[k - 1]);
    }
  }
}
