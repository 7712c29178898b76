/** What closing an end of a pipe means for everyone else, in every run of the step model. */
module PipeClose {
  import opened Params
  import opened PipeSched
  import opened PipeCalls

  /** A close call that has not got to its store yet. */
  predicate Pending(c: Pc, w: bool) { (c.CWant? || c.CIn?) && c.writable == w }

  predicate Closes(c: Pc, w: bool) { Closing(c) && c.writable == w }

  predicate Fd(s: State, w: bool) { if w then s.wfd else s.rfd }

  predicate Open(s: State, w: bool) { if w then s.writeopen else s.readopen }

  /** An end is open exactly while a descriptor refers to it or the call that closes it has still to store that. */
  ghost predicate EndOk(s: State, w: bool) {
    && (Open(s, w) <==> Fd(s, w) || exists p :: 0 <= p < |s.pc| && Pending(s.pc[p], w))
    && (forall p, q | 0 <= p < q < |s.pc| :: !(Closes(s.pc[p], w) && Closes(s.pc[q], w)))
    && (forall p | 0 <= p < |s.pc| :: Closes(s.pc[p], w) ==> !Fd(s, w))
  }

  lemma StartEnds(n: nat, w: bool)
    ensures EndOk(Start(n), w)
  {
  }

  /** What a step of process `q` is to one end, and to its own part in closing it. */
  ghost predicate OwnEnd(s: State, s': State, q: nat, st: Step, w: bool)
    requires q < |s.pc| == |s'.pc|
  {
    && (Fd(s', w) <==> Fd(s, w) && st != StartClose(w))
    && if st == StartClose(w) then Fd(s, w) && Pending(s'.pc[q], w) && Open(s', w) == Open(s, w)
       else if st == CloseEnd && Closes(s.pc[q], w) then !Open(s', w) && Closes(s'.pc[q], w) && !Pending(s'.pc[q], w)
       else
         && Open(s', w) == Open(s, w) && Pending(s'.pc[q], w) == Pending(s.pc[q], w)
         && (Closes(s'.pc[q], w) ==> Closes(s.pc[q], w))
  }

  ghost predicate EndMove(s: State, s': State, q: nat, st: Step, w: bool)
    requires q < |s.pc| == |s'.pc|
  {
    && OwnEnd(s, s', q, st, w)
    && forall p | 0 <= p < |s.pc| && p != q ::
         Closes(s'.pc[p], w) == Closes(s.pc[p], w) && Pending(s'.pc[p], w) == Pending(s.pc[p], w)
  }

  lemma EndMoves(s: State, q: nat, st: Step, w: bool)
    requires q < |s.pc| && Enabled(s, q, st)
    ensures |Do(s, q, st).pc| == |s.pc| && EndMove(s, Do(s, q, st), q, st, w)
  {
    hide Do, Enabled, OwnEnd;
    var s' := Do(s, q, st);
    KeepsSize(s, q, st);
    OwnMove(s, q, st, w);
    forall p | 0 <= p < |s.pc| && p != q
      ensures Closes(s'.pc[p], w) == Closes(s.pc[p], w) && Pending(s'.pc[p], w) == Pending(s.pc[p], w)
    {
      OtherStep(s, p, q, st);
    }
  }

  lemma OwnMove(s: State, q: nat, st: Step, w: bool)
    requires q < |s.pc| && Enabled(s, q, st)
    ensures |Do(s, q, st).pc| == |s.pc| && OwnEnd(s, Do(s, q, st), q, st, w)
  {
    hide OwnEnd;
    if st.StartClose? {
      CloseEnds(s, q, st.writable, w);
    } else if st.CloseEnd? {
      MarkEnds(s, q, w);
    } else {
      QuietEnds(s, q, st);
      hide Do, Enabled, KeptEnds;
      KeptOwn(s, Do(s, q, st), q, st, w);
    }
  }

  /** The same ends, and the close call, if any, as far as it was or done. */
  ghost predicate KeptEnds(s: State, s': State, q: nat) {
    && q < |s.pc| == |s'.pc| && s'.readopen == s.readopen && s'.writeopen == s.writeopen && s'.rfd == s.rfd
    && s'.wfd == s.wfd
    && forall w :: Pending(s'.pc[q], w) == Pending(s.pc[q], w) && (Closes(s'.pc[q], w) ==> Closes(s.pc[q], w))
  }

  lemma KeptOwn(s: State, s': State, q: nat, st: Step, w: bool)
    requires KeptEnds(s, s', q) && !st.StartClose? && !st.CloseEnd?
    ensures OwnEnd(s, s', q, st, w)
  {
  }

  lemma QuietEnds(s: State, q: nat, st: Step)
    requires q < |s.pc| && Enabled(s, q, st) && !st.StartClose? && !st.CloseEnd?
    ensures KeptEnds(s, Do(s, q, st), q)
  {
    hide DoReadByte, DoWriteByte, DoWakeOne;
    match st
    case ReadByte(ok) => ReadEnds(s, q, ok);
    case WriteByte(ok) => WriteEnds(s, q, ok);
    case WakeOne => WakeEnds(s, q);
    case _ =>
  }

  lemma ReadEnds(s: State, q: nat, ok: bool)
    requires q < |s.pc| && s.pc[q].RCopy?
    ensures KeptEnds(s, DoReadByte(s, q, ok), q)
  {
  }

  lemma WriteEnds(s: State, q: nat, ok: bool)
    requires q < |s.pc| && s.pc[q].WIn?
    ensures KeptEnds(s, DoWriteByte(s, q, ok), q)
  {
  }

  lemma WakeEnds(s: State, q: nat)
    requires q < |s.pc| && InWake(s.pc[q]) && s.pc[q].j < |s.pc|
    ensures KeptEnds(s, DoWakeOne(s, q), q)
  {
    hide Woken;
  }

  lemma CloseEnds(s: State, q: nat, x: bool, w: bool)
    requires q < |s.pc| && Enabled(s, q, StartClose(x))
    ensures OwnEnd(s, DoStartClose(s, q, x), q, StartClose(x), w)
  {
  }

  lemma MarkEnds(s: State, q: nat, w: bool)
    requires q < |s.pc| && s.pc[q].CIn?
    ensures OwnEnd(s, DoCloseEnd(s, q), q, CloseEnd, w)
  {
  }

  lemma EndStep(s: State, q: nat, st: Step, w: bool)
    requires EndOk(s, w) && q < |s.pc| && Enabled(s, q, st)
    ensures EndOk(Do(s, q, st), w)
  {
    EndMoves(s, q, st, w);
    var s' := Do(s, q, st);
    hide Do, Enabled, Pending, Closes, Open, Fd;
    EndNext(s, s', q, st, w);
  }

  lemma EndNext(s: State, s': State, q: nat, st: Step, w: bool)
    requires EndOk(s, w) && q < |s.pc| == |s'.pc| && EndMove(s, s', q, st, w)
    ensures EndOk(s', w)
  {
    assert Pending(s'.pc[q], w) ==> Closes(s'.pc[q], w);
    if st == StartClose(w) {
      assert Pending(s'.pc[q], w);
    } else if st == CloseEnd && Closes(s.pc[q], w) {
      forall p | 0 <= p < |s.pc| ensures !Pending(s'.pc[p], w) {
        assert p != q ==> !Closes(s.pc[p], w);
      }
    } else {
      forall p | 0 <= p < |s.pc| ensures Pending(s'.pc[p], w) == Pending(s.pc[p], w) {}
      if exists p :: 0 <= p < |s.pc| && Pending(s.pc[p], w) {
        var p :| 0 <= p < |s.pc| && Pending(s.pc[p], w);
        assert Pending(s'.pc[p], w);
      }
    }
  }

  /** In every run each end is open exactly as long as it should be. */
  lemma {:induction false} EndsRight(ss: seq<State>, acts: seq<(nat, Step)>, n: nat, k: nat, w: bool)
    requires Run(ss, acts) && ss[0] == Start(n) && k < |ss|
    ensures EndOk(ss[k], w)
    decreases k
  {
    hide Do, Enabled, EndOk;
    if k == 0 {
      StartEnds(n, w);
    } else {
      EndsRight(ss, acts, n, k - 1, w);
      EndStep(ss[k - 1], acts[k - 1].0, acts[k - 1].1, w);
    }
  }

  // ---- after the close ----

  /** The end is given up and the call that did it is over. */
  ghost predicate Gone(s: State, w: bool) {
    !Fd(s, w) && forall p | 0 <= p < |s.pc| :: !Closes(s.pc[p], w)
  }

  /** Then the end is closed, nobody sleeps for it, and nobody will. */
  lemma GoneFacts(s: State, w: bool)
    requires Inv(s) && EndOk(s, w) && Gone(s, w)
    ensures !Open(s, w)
    ensures forall p | 0 <= p < |s.pc| :: !(if w then WaitsData(s.pc[p]) else WaitsRoom(s.pc[p]))
  {
    hide FifoOk;
    forall p | 0 <= p < |s.pc| ensures !(if w then WaitsData(s.pc[p]) else WaitsRoom(s.pc[p])) {
      assert DataOk(s, p) && RoomOk(s, p);
    }
  }

  lemma GoneStays(s: State, q: nat, st: Step, w: bool)
    requires Gone(s, w) && q < |s.pc| && Enabled(s, q, st)
    ensures Gone(Do(s, q, st), w)
  {
    EndMoves(s, q, st, w);
    hide Do, Enabled, Pending, Closes, Open, Fd;
  }

  lemma {:induction false} GoneLater(ss: seq<State>, acts: seq<(nat, Step)>, j: nat, k: nat, w: bool)
    requires Run(ss, acts) && j <= k < |ss| && Gone(ss[j], w)
    ensures Gone(ss[k], w)
    decreases k
  {
    hide Do, Enabled, Gone;
    if j < k {
      GoneLater(ss, acts, j, k - 1, w);
      GoneStays(ss[k - 1], acts[k - 1].0, acts[k - 1].1, w);
    }
  }

  /** Nobody but process `p` closes the end, and no descriptor refers to it. */
  ghost predicate LastHand(s: State, p: nat, w: bool) {
    !Fd(s, w) && forall q | 0 <= q < |s.pc| && q != p :: !Closes(s.pc[q], w)
  }

  lemma HandStays(s: State, p: nat, q: nat, st: Step, w: bool)
    requires LastHand(s, p, w) && q < |s.pc| && Enabled(s, q, st)
    ensures LastHand(Do(s, q, st), p, w)
  {
    EndMoves(s, q, st, w);
    hide Do, Enabled, Pending, Closes, Open, Fd;
  }

  lemma HandStarts(s: State, p: nat, w: bool)
    requires EndOk(s, w) && p < |s.pc| && Enabled(s, p, StartClose(w))
    ensures LastHand(Do(s, p, StartClose(w)), p, w)
  {
    EndMoves(s, p, StartClose(w), w);
    hide Do, Enabled, Pending, Open;
  }

  lemma {:induction false} HandLater(ss: seq<State>, acts: seq<(nat, Step)>, p: nat, j: nat, k: nat, w: bool)
    requires Run(ss, acts) && j <= k < |ss| && LastHand(ss[j], p, w)
    ensures LastHand(ss[k], p, w)
    decreases k
  {
    hide Do, Enabled, LastHand;
    if j < k {
      HandLater(ss, acts, p, j, k - 1, w);
      HandStays(ss[k - 1], p, acts[k - 1].0, acts[k - 1].1, w);
    }
  }

  /** Whoever comes back to a closed end gets an answer: a reader goes on to copy what is there, and a writer with
      something to write returns and puts in nothing. */
  ghost predicate Answered(s: State, w: bool) {
    if w
    then forall p | 0 <= p < |s.pc| && s.pc[p].RIn? :: DoReadCheck(s, p) == s.(pc := s.pc[p := RCopy(s.pc[p].n)])
    else forall p, ok | 0 <= p < |s.pc| && s.pc[p].WIn? && s.pc[p].src != [] ::
           DoWriteByte(s, p, ok) == s.(lock := -1, pc := s.pc[p := Idle])
  }

  lemma HungUp(s: State, w: bool)
    requires !Open(s, w)
    ensures Answered(s, w)
  {
  }

  /** From the return of a close call on, in every run: the end is closed, nobody is asleep for it, and whoever comes
      back to it goes on or returns. */
  lemma CloseReturns(ss: seq<State>, acts: seq<(nat, Step)>, n: nat, p: nat, i: nat, j: nat, k: nat, w: bool)
    requires Run(ss, acts) && ss[0] == Start(n) && i < j <= k < |ss| && acts[i] == (p, StartClose(w))
    requires p < |ss[j].pc| && !Closing(ss[j].pc[p])
    ensures !Open(ss[k], w)
    ensures forall q | 0 <= q < |ss[k].pc| :: !(if w then WaitsData(ss[k].pc[q]) else WaitsRoom(ss[k].pc[q]))
    ensures Answered(ss[k], w)
  {
    hide EndOk, Gone, Inv, LastHand, Answered;
    EndsRight(ss, acts, n, i, w);
    HandStarts(ss[i], p, w);
    HandLater(ss, acts, p, i + 1, j, w);
    HandOver(ss[j], p, w);
    GoneLater(ss, acts, j, k, w);
    EndsRight(ss, acts, n, k, w);
    StartInv(n);
    RunInv(ss, acts, k);
    GoneFacts(ss[k], w);
    HungUp(ss[k], w);
  }

  lemma HandOver(s: State, p: nat, w: bool)
    requires LastHand(s, p, w) && p < |s.pc| && !Closing(s.pc[p])
    ensures Gone(s, w)
  {
  }

  // ---- end of file ----

  /** An empty pipe with one reader and a process that closes the write end. */
  ghost predicate At(s: State, reader: Pc, closer: Pc, lock: int, open: bool) {
    && |s.pc| == 2 && s.pc[0] == reader && s.pc[1] == closer && s.lock == lock && s.writeopen == open && s.q == []
    && s.taken == []
  }

  lemma Joined(a: seq<State>, x: seq<(nat, Step)>, b: seq<State>, y: seq<(nat, Step)>)
    returns (s: seq<State>, z: seq<(nat, Step)>)
    requires Run(a, x) && Run(b, y) && |a| == |x| + 1 && |b| > 0 && a[|x|] == b[0]
    ensures s == a[..|x|] + b && z == x + y && Run(s, z) && |s| == |z| + 1
  {
    hide Enabled, Do;
    s, z := a[..|x|] + b, x + y;
    forall k | 0 <= k < |z|
      ensures z[k].0 < |s[k].pc| && Enabled(s[k], z[k].0, z[k].1) && s[k + 1] == Do(s[k], z[k].0, z[k].1)
    {
      if k < |x| {
        assert s[k] == a[k] && s[k + 1] == a[k + 1];
      } else {
        assert s[k] == b[k - |x|] && s[k + 1] == b[k - |x| + 1];
      }
    }
  }

  lemma FallsAsleep() returns (ss: seq<State>, acts: seq<(nat, Step)>)
    ensures Run(ss, acts) && |acts| == 4 && acts[0] == (0, StartRead(1)) && ss[0] == Start(2)
    ensures At(ss[4], RAsleep(1), Idle, -1, true) && ss[4].wfd
  {
    var s0 := Start(2);
    var s1 := Do(s0, 0, StartRead(1));
    var s2 := Do(s1, 0, Acquire);
    var s3 := Do(s2, 0, ReadCheck);
    var s4 := Do(s3, 0, FallAsleep);
    ss, acts := [s0, s1, s2, s3, s4], [(0, StartRead(1)), (0, Acquire), (0, ReadCheck), (0, FallAsleep)];
  }

  lemma ClosesWrite(s0: State) returns (ss: seq<State>, acts: seq<(nat, Step)>)
    requires At(s0, RAsleep(1), Idle, -1, true) && s0.wfd
    ensures Run(ss, acts) && |acts| == 3 && acts[0] == (1, StartClose(true)) && ss[0] == s0
    ensures At(ss[3], RAsleep(1), CWake(0, true), 1, false)
  {
    hide DoReadByte, DoWriteByte, DoWakeOne;
    var s1 := Do(s0, 1, StartClose(true));
    var s2 := Do(s1, 1, Acquire);
    var s3 := Do(s2, 1, CloseEnd);
    ss, acts := [s0, s1, s2, s3], [(1, StartClose(true)), (1, Acquire), (1, CloseEnd)];
  }

  lemma WakesReader(s0: State) returns (ss: seq<State>, acts: seq<(nat, Step)>)
    requires At(s0, RAsleep(1), CWake(0, true), 1, false)
    ensures Run(ss, acts) && |acts| == 3 && ss[0] == s0 && At(ss[3], RWant(1), Idle, -1, false)
  {
    hide DoReadByte, DoWriteByte, DoAcquire, DoReadCheck;
    var s1 := Do(s0, 1, WakeOne);
    var s2 := Do(s1, 1, WakeOne);
    var s3 := Do(s2, 1, WakeDone);
    ss, acts := [s0, s1, s2, s3], [(1, WakeOne), (1, WakeOne), (1, WakeDone)];
  }

  lemma ReadsNothing(s0: State) returns (ss: seq<State>, acts: seq<(nat, Step)>)
    requires At(s0, RWant(1), Idle, -1, false)
    ensures Run(ss, acts) && |acts| == 3 && ss[0] == s0 && At(ss[3], RWake(0), Idle, 0, false)
  {
    hide DoWriteByte, DoWakeOne;
    var s1 := Do(s0, 0, Acquire);
    var s2 := Do(s1, 0, ReadCheck);
    var s3 := Do(s2, 0, ReadByte(true));
    ss, acts := [s0, s1, s2, s3], [(0, Acquire), (0, ReadCheck), (0, ReadByte(true))];
  }

  lemma ReaderDone(s0: State) returns (ss: seq<State>, acts: seq<(nat, Step)>)
    requires At(s0, RWake(0), Idle, 0, false)
    ensures Run(ss, acts) && |acts| == 3 && ss[0] == s0 && At(ss[3], Idle, Idle, -1, false)
  {
    hide DoReadByte, DoWriteByte, DoAcquire, DoReadCheck;
    var s1 := Do(s0, 0, WakeOne);
    var s2 := Do(s1, 0, WakeOne);
    var s3 := Do(s2, 0, WakeDone);
    ss, acts := [s0, s1, s2, s3], [(0, WakeOne), (0, WakeOne), (0, WakeDone)];
  }

  /** A run in which a reader falls asleep on the empty pipe, the write end is closed, and the reader wakes up and
      returns with nothing. */
  lemma EndOfFile() returns (ss: seq<State>, acts: seq<(nat, Step)>)
    ensures Run(ss, acts) && |acts| == 16 && ss[0] == Start(2)
    ensures acts[0] == (0, StartRead(1)) && At(ss[4], RAsleep(1), Idle, -1, true) && acts[4] == (1, StartClose(true))
    ensures At(ss[16], Idle, Idle, -1, false)
  {
    hide Enabled, Do, At;
    ss, acts := FallsAsleep();
    var b, y := ClosesWrite(ss[4]);
    ss, acts := Joined(ss, acts, b, y);
    b, y := WakesReader(ss[7]);
    ss, acts := Joined(ss, acts, b, y);
    b, y := ReadsNothing(ss[10]);
    ss, acts := Joined(ss, acts, b, y);
    b, y := ReaderDone(ss[13]);
    ss, acts := Joined(ss, acts, b, y);
  }
}
