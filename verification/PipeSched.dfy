/** Many processes on one pipe: pipewrite, piperead and pipeclose over sleep and wakeup, step by step.
    The queue is the pipe's buffer as refined by Pipe.Ring; no process is killed. */
module PipeSched {
  import opened Params

  /** Where a process is. `j` is the index wakeup's loop has reached. */
  datatype Pc =
    | Idle
    | RWant(n: nat)                    // piperead, waiting for pi->lock (first time or after a sleep)
    | RIn(n: nat)                      // holds pi->lock, at the test of the outer loop
    | RFall(n: nat)                    // holds its own p->lock, has released pi->lock, not yet SLEEPING
    | RAsleep(n: nat)
    | RCopy(left: nat)                 // holds pi->lock, in the copying loop
    | RWake(j: nat)                    // wakeup(&pi->nwrite), then release and return
    | WWant(src: seq<int>)             // pipewrite, waiting for pi->lock
    | WIn(src: seq<int>)               // holds pi->lock, at the top of the loop
    | WWakeFull(j: nat, src: seq<int>) // wakeup(&pi->nread), then sleep
    | WFall(src: seq<int>)
    | WAsleep(src: seq<int>)
    | WWakeEnd(j: nat)                 // wakeup(&pi->nread), then release and return
    | CWant(writable: bool)            // pipeclose, waiting for pi->lock
    | CIn(writable: bool)
    | CWake(j: nat, writable: bool)    // the wakeup of pipeclose

  /** rfd, wfd: some descriptor still refers to that end. */
  datatype State = State(pc: seq<Pc>, lock: int, q: seq<int>, readopen: bool, writeopen: bool, rfd: bool, wfd: bool,
                         sent: seq<int>, taken: seq<int>, delivered: seq<int>, lost: bool)

  predicate Holding(c: Pc) {
    c.RIn? || c.RCopy? || c.RWake? || c.WIn? || c.WWakeFull? || c.WWakeEnd? || c.CIn? || c.CWake?
  }

  predicate Reading(c: Pc) { c.RWant? || c.RIn? || c.RFall? || c.RAsleep? || c.RCopy? || c.RWake? }

  predicate Writing(c: Pc) { c.WWant? || c.WIn? || c.WWakeFull? || c.WFall? || c.WAsleep? || c.WWakeEnd? }

  predicate Closing(c: Pc) { c.CWant? || c.CIn? || c.CWake? }

  /** Asleep on &pi->nread, or about to be with no way back. */
  predicate WaitsData(c: Pc) { c.RFall? || c.RAsleep? }

  predicate WaitsRoom(c: Pc) { c.WFall? || c.WAsleep? }

  /** The lock holder at `c` has still to wake process p from &pi->nread. */
  predicate OwesData(c: Pc, p: nat) {
    c.WIn? || ((c.WWakeFull? || c.WWakeEnd?) && c.j <= p) || (c.CWake? && c.writable && c.j <= p)
  }

  /** ... from &pi->nwrite. */
  predicate OwesRoom(c: Pc, p: nat) {
    c.RCopy? || (c.RWake? && c.j <= p) || (c.CWake? && !c.writable && c.j <= p)
  }

  // ---- steps ----

  datatype Step =
    | StartRead(n: nat)
    | StartWrite(src: seq<int>)
    | StartClose(writable: bool)
    | Acquire
    | ReadCheck
    | ReadByte(ok: bool)      // ok: copyout succeeds
    | WriteByte(ok: bool)     // ok: copyin succeeds
    | CloseEnd
    | WakeOne
    | WakeDone
    | FallAsleep

  predicate InWake(c: Pc) { c.RWake? || c.WWakeFull? || c.WWakeEnd? || c.CWake? }

  function Next(c: Pc): Pc
    requires InWake(c)
  {
    match c
    case RWake(j) => RWake(j + 1)
    case WWakeFull(j, src) => WWakeFull(j + 1, src)
    case WWakeEnd(j) => WWakeEnd(j + 1)
    case CWake(j, w) => CWake(j + 1, w)
  }

  /** What wakeup does to a process it finds: only one SLEEPING on the right channel becomes RUNNABLE. */
  function Woken(c: Pc, waker: Pc): Pc
    requires InWake(waker)
  {
    var data := waker.WWakeFull? || waker.WWakeEnd? || (waker.CWake? && waker.writable);
    if data && c.RAsleep? then RWant(c.n)
    else if !data && c.WAsleep? then WWant(c.src)
    else c
  }

  predicate Enabled(s: State, p: nat, st: Step)
    requires p < |s.pc|
  {
    var c := s.pc[p];
    match st
    case StartRead(_) => c.Idle? && s.rfd
    case StartWrite(_) => c.Idle? && s.wfd
    case StartClose(w) =>
      c.Idle? && (if w then s.wfd && forall k | 0 <= k < |s.pc| :: !Writing(s.pc[k])
                  else s.rfd && forall k | 0 <= k < |s.pc| :: !Reading(s.pc[k]))
    case Acquire => (c.RWant? || c.WWant? || c.CWant?) && s.lock == -1
    case ReadCheck => c.RIn?
    case ReadByte(_) => c.RCopy?
    case WriteByte(_) => c.WIn?
    case CloseEnd => c.CIn?
    case WakeOne => InWake(c) && c.j < |s.pc| && (c.j == p || !(s.pc[c.j].RFall? || s.pc[c.j].WFall?))
    case WakeDone => InWake(c) && c.j >= |s.pc|
    case FallAsleep => c.RFall? || c.WFall?
  }

  /** One turn of piperead's copying loop: the byte leaves the pipe even when copyout then fails. */
  function DoReadByte(s: State, p: nat, ok: bool): State
    requires p < |s.pc| && s.pc[p].RCopy?
  {
    if s.pc[p].left == 0 || s.q == [] then s.(pc := s.pc[p := RWake(0)])
    else if ok then
      s.(q := s.q[1..], taken := s.taken + [s.q[0]], delivered := s.delivered + [s.q[0]],
         pc := s.pc[p := RCopy(s.pc[p].left - 1)])
    else s.(q := s.q[1..], taken := s.taken + [s.q[0]], lost := true, pc := s.pc[p := RWake(0)])
  }

  /** One turn of pipewrite's loop. */
  function DoWriteByte(s: State, p: nat, ok: bool): State
    requires p < |s.pc| && s.pc[p].WIn?
  {
    var src := s.pc[p].src;
    if src == [] then s.(pc := s.pc[p := WWakeEnd(0)])
    else if !s.readopen then s.(lock := -1, pc := s.pc[p := Idle])
    else if |s.q| == PIPESIZE then s.(pc := s.pc[p := WWakeFull(0, src)])
    else if !ok then s.(pc := s.pc[p := WWakeEnd(0)])
    else s.(q := s.q + [src[0]], sent := s.sent + [src[0]], pc := s.pc[p := WIn(src[1..])])
  }

  function DoAcquire(s: State, p: nat): State
    requires p < |s.pc| && (s.pc[p].RWant? || s.pc[p].WWant? || s.pc[p].CWant?)
  {
    var c := s.pc[p];
    s.(lock := p, pc := s.pc[p := if c.RWant? then RIn(c.n) else if c.WWant? then WIn(c.src) else CIn(c.writable)])
  }

  function DoReadCheck(s: State, p: nat): State
    requires p < |s.pc| && s.pc[p].RIn?
  {
    if s.q == [] && s.writeopen then s.(lock := -1, pc := s.pc[p := RFall(s.pc[p].n)])
    else s.(pc := s.pc[p := RCopy(s.pc[p].n)])
  }

  function DoStartClose(s: State, p: nat, w: bool): State
    requires p < |s.pc|
  {
    if w then s.(pc := s.pc[p := CWant(w)], wfd := false) else s.(pc := s.pc[p := CWant(w)], rfd := false)
  }

  function DoCloseEnd(s: State, p: nat): State
    requires p < |s.pc| && s.pc[p].CIn?
  {
    if s.pc[p].writable then s.(writeopen := false, pc := s.pc[p := CWake(0, true)])
    else s.(readopen := false, pc := s.pc[p := CWake(0, false)])
  }

  /** One turn of wakeup's loop over the process table. */
  function DoWakeOne(s: State, p: nat): State
    requires p < |s.pc| && InWake(s.pc[p]) && s.pc[p].j < |s.pc|
  {
    var c := s.pc[p];
    s.(pc := (if c.j == p then s.pc else s.pc[c.j := Woken(s.pc[c.j], c)])[p := Next(c)])
  }

  function DoWakeDone(s: State, p: nat): State
    requires p < |s.pc|
  {
    s.(lock := -1, pc := s.pc[p := if s.pc[p].WWakeFull? then WFall(s.pc[p].src) else Idle])
  }

  function DoFall(s: State, p: nat): State
    requires p < |s.pc| && (s.pc[p].RFall? || s.pc[p].WFall?)
  {
    s.(pc := s.pc[p := if s.pc[p].RFall? then RAsleep(s.pc[p].n) else WAsleep(s.pc[p].src)])
  }

  function Do(s: State, p: nat, st: Step): State
    requires p < |s.pc| && Enabled(s, p, st)
  {
    match st
    case StartRead(n) => s.(pc := s.pc[p := RWant(n)])
    case StartWrite(src) => s.(pc := s.pc[p := WWant(src)])
    case StartClose(w) => DoStartClose(s, p, w)
    case Acquire => DoAcquire(s, p)
    case ReadCheck => DoReadCheck(s, p)
    case ReadByte(ok) => DoReadByte(s, p, ok)
    case WriteByte(ok) => DoWriteByte(s, p, ok)
    case CloseEnd => DoCloseEnd(s, p)
    case WakeOne => DoWakeOne(s, p)
    case WakeDone => DoWakeDone(s, p)
    case FallAsleep => DoFall(s, p)
  }

  // ---- the invariant ----

  /** A process asleep for data: the pipe is empty and the write end open, or the lock holder still owes it a wakeup. */
  ghost predicate DataOk(s: State, p: nat)
    requires p < |s.pc|
  {
    WaitsData(s.pc[p]) ==> (s.q == [] && s.writeopen) || (0 <= s.lock < |s.pc| && OwesData(s.pc[s.lock], p))
  }

  ghost predicate RoomOk(s: State, p: nat)
    requires p < |s.pc|
  {
    WaitsRoom(s.pc[p]) ==> (|s.q| == PIPESIZE && s.readopen) || (0 <= s.lock < |s.pc| && OwesRoom(s.pc[s.lock], p))
  }

  ghost predicate LockOk(s: State) {
    && -1 <= s.lock < |s.pc|
    && (forall p | 0 <= p < |s.pc| :: Holding(s.pc[p]) <==> s.lock == p)
    && (forall p | 0 <= p < |s.pc| :: s.pc[p].WWakeFull? ==> |s.q| == PIPESIZE && s.readopen)
  }

  ghost predicate EndsOk(s: State) {
    && (s.rfd ==> s.readopen) && (s.wfd ==> s.writeopen)
    && (forall p | 0 <= p < |s.pc| :: (Reading(s.pc[p]) ==> s.rfd) && (Writing(s.pc[p]) ==> s.wfd))
    && (forall p | 0 <= p < |s.pc| :: Closing(s.pc[p]) ==> if s.pc[p].writable then !s.wfd else !s.rfd)
  }

  ghost predicate FifoOk(s: State) {
    && |s.q| <= PIPESIZE && s.sent == s.taken + s.q
    && (!s.lost ==> s.delivered == s.taken)
  }

  ghost predicate Inv(s: State) {
    && LockOk(s) && EndsOk(s) && FifoOk(s)
    && (forall p | 0 <= p < |s.pc| :: DataOk(s, p))
    && (forall p | 0 <= p < |s.pc| :: RoomOk(s, p))
  }

  /** A new pipe with `n` processes around. */
  function Start(n: nat): State {
    State(seq(n, _ => Idle), -1, [], true, true, true, true, [], [], [], false)
  }

  lemma StartInv(n: nat)
    ensures Inv(Start(n))
  {
  }

  lemma StartReadInv(s: State, p: nat, n: nat)
    requires Inv(s) && p < |s.pc| && (s.pc[p].Idle? && s.rfd)
    ensures Inv(s.(pc := s.pc[p := RWant(n)]))
  {
    var s' := s.(pc := s.pc[p := RWant(n)]);
    forall k | 0 <= k < |s.pc| ensures DataOk(s', k) && RoomOk(s', k) { assert DataOk(s, k) && RoomOk(s, k); }
  }

  lemma StartWriteInv(s: State, p: nat, src: seq<int>)
    requires Inv(s) && p < |s.pc| && (s.pc[p].Idle? && s.wfd)
    ensures Inv(s.(pc := s.pc[p := WWant(src)]))
  {
    var s' := s.(pc := s.pc[p := WWant(src)]);
    forall k | 0 <= k < |s.pc| ensures DataOk(s', k) && RoomOk(s', k) { assert DataOk(s, k) && RoomOk(s, k); }
  }

  lemma StartCloseInv(s: State, p: nat, w: bool)
    requires Inv(s) && p < |s.pc| && (Enabled(s, p, StartClose(w)))
    ensures Inv(DoStartClose(s, p, w))
  {
    var s' := DoStartClose(s, p, w);
    forall k | 0 <= k < |s.pc| ensures DataOk(s', k) && RoomOk(s', k) { assert DataOk(s, k) && RoomOk(s, k); }
  }

  lemma AcquireInv(s: State, p: nat)
    requires Inv(s) && p < |s.pc| && (Enabled(s, p, Acquire))
    ensures Inv(DoAcquire(s, p))
  {
    var s' := DoAcquire(s, p);
    forall k | 0 <= k < |s.pc| ensures DataOk(s', k) && RoomOk(s', k) { assert DataOk(s, k) && RoomOk(s, k); }
  }

  lemma ReadCheckInv(s: State, p: nat)
    requires Inv(s) && p < |s.pc| && (s.pc[p].RIn?)
    ensures Inv(DoReadCheck(s, p))
  {
    var s' := DoReadCheck(s, p);
    forall k | 0 <= k < |s.pc| ensures DataOk(s', k) && RoomOk(s', k) { assert DataOk(s, k) && RoomOk(s, k); }
  }

  lemma ReadByteInv(s: State, p: nat, ok: bool)
    requires Inv(s) && p < |s.pc| && (s.pc[p].RCopy?)
    ensures Inv(DoReadByte(s, p, ok))
  {
    var s' := DoReadByte(s, p, ok);
    forall k | 0 <= k < |s.pc| ensures DataOk(s', k) && RoomOk(s', k) {
      hide EndsOk, FifoOk;
      assert DataOk(s, k) && RoomOk(s, k);
    }
    hide DataOk, RoomOk;
    assert FifoOk(s') by { hide LockOk, EndsOk; }
  }

  lemma WriteByteInv(s: State, p: nat, ok: bool)
    requires Inv(s) && p < |s.pc| && (s.pc[p].WIn?)
    ensures Inv(DoWriteByte(s, p, ok))
  {
    var s' := DoWriteByte(s, p, ok);
    forall k | 0 <= k < |s.pc| ensures DataOk(s', k) && RoomOk(s', k) {
      hide EndsOk, FifoOk;
      assert DataOk(s, k) && RoomOk(s, k);
    }
    hide DataOk, RoomOk;
    assert FifoOk(s') by { hide LockOk, EndsOk; }
  }

  lemma CloseEndInv(s: State, p: nat)
    requires Inv(s) && p < |s.pc| && (s.pc[p].CIn?)
    ensures Inv(DoCloseEnd(s, p))
  {
    var s' := DoCloseEnd(s, p);
    forall k | 0 <= k < |s.pc| ensures DataOk(s', k) && RoomOk(s', k) { assert DataOk(s, k) && RoomOk(s, k); }
  }

  lemma WakeOneOwes(s: State, p: nat, k: nat)
    requires LockOk(s) && p < |s.pc| && Enabled(s, p, WakeOne) && k < |s.pc| && DataOk(s, k) && RoomOk(s, k)
    ensures DataOk(DoWakeOne(s, p), k) && RoomOk(DoWakeOne(s, p), k)
  {
  }

  lemma WakeOneInv(s: State, p: nat)
    requires Inv(s) && p < |s.pc| && (Enabled(s, p, WakeOne))
    ensures Inv(DoWakeOne(s, p))
  {
    var s' := DoWakeOne(s, p);
    hide DataOk, RoomOk;
    forall k | 0 <= k < |s.pc| ensures DataOk(s', k) && RoomOk(s', k) { WakeOneOwes(s, p, k); }
  }

  lemma WakeDoneInv(s: State, p: nat)
    requires Inv(s) && p < |s.pc| && (Enabled(s, p, WakeDone))
    ensures Inv(DoWakeDone(s, p))
  {
    var s' := DoWakeDone(s, p);
    forall k | 0 <= k < |s.pc| ensures DataOk(s', k) && RoomOk(s', k) { assert DataOk(s, k) && RoomOk(s, k); }
  }

  lemma FallInv(s: State, p: nat)
    requires Inv(s) && p < |s.pc| && (s.pc[p].RFall? || s.pc[p].WFall?)
    ensures Inv(DoFall(s, p))
  {
    var s' := DoFall(s, p);
    forall k | 0 <= k < |s.pc| ensures DataOk(s', k) && RoomOk(s', k) { assert DataOk(s, k) && RoomOk(s, k); }
  }

  lemma StepInv(s: State, p: nat, st: Step)
    requires Inv(s) && p < |s.pc| && Enabled(s, p, st)
    ensures Inv(Do(s, p, st))
  {
    match st
    case StartRead(n) => StartReadInv(s, p, n);
    case StartWrite(src) => StartWriteInv(s, p, src);
    case StartClose(w) => StartCloseInv(s, p, w);
    case Acquire => AcquireInv(s, p);
    case ReadCheck => ReadCheckInv(s, p);
    case ReadByte(ok) => ReadByteInv(s, p, ok);
    case WriteByte(ok) => WriteByteInv(s, p, ok);
    case CloseEnd => CloseEndInv(s, p);
    case WakeOne => WakeOneInv(s, p);
    case WakeDone => WakeDoneInv(s, p);
    case FallAsleep => FallInv(s, p);
  }

  /** Every run: each entry is a process and its step. */
  ghost predicate Run(ss: seq<State>, acts: seq<(nat, Step)>) {
    && |ss| == |acts| + 1
    && forall k | 0 <= k < |acts| ::
         acts[k].0 < |ss[k].pc| && Enabled(ss[k], acts[k].0, acts[k].1) && ss[k + 1] == Do(ss[k], acts[k].0, acts[k].1)
  }

  lemma {:induction false} RunInv(ss: seq<State>, acts: seq<(nat, Step)>, k: nat)
    requires Run(ss, acts) && k < |ss| && Inv(ss[0])
    ensures Inv(ss[k])
    decreases k
  {
    if k > 0 {
      RunInv(ss, acts, k - 1);
      StepInv(ss[k - 1], acts[k - 1].0, acts[k - 1].1);
    }
  }

  // ---- what follows in every reachable state ----

  /** With the lock free, a reader sleeps only on an empty pipe whose write end is open, and a writer only on a full
      pipe whose read end is open. */
  lemma SleepersRight(s: State, p: nat)
    requires Inv(s) && p < |s.pc| && s.lock == -1
    ensures WaitsData(s.pc[p]) ==> s.q == [] && s.writeopen
    ensures WaitsRoom(s.pc[p]) ==> |s.q| == PIPESIZE && s.readopen
  {
    assert DataOk(s, p) && RoomOk(s, p);
  }

  /** A sleeping reader and a sleeping writer at once: someone holds the lock and is about to wake one of them. */
  lemma NeverBothAsleep(s: State, r: nat, w: nat)
    requires Inv(s) && r < |s.pc| && w < |s.pc| && WaitsData(s.pc[r]) && WaitsRoom(s.pc[w])
    ensures 0 <= s.lock < |s.pc| && Holding(s.pc[s.lock])
    ensures OwesData(s.pc[s.lock], r) || OwesRoom(s.pc[s.lock], w)
  {
    assert DataOk(s, r) && RoomOk(s, w);
  }

  predicate Parked(c: Pc) { c.Idle? || c.RAsleep? || c.WAsleep? }

  /** If nothing but idle and sleeping processes is left, readers and writers are not both among the sleepers. */
  lemma NotAllAsleep(s: State, r: nat, w: nat)
    requires Inv(s) && (forall p | 0 <= p < |s.pc| :: Parked(s.pc[p])) && r < |s.pc| && w < |s.pc|
    ensures !(s.pc[r].RAsleep? && s.pc[w].WAsleep?)
  {
    if s.pc[r].RAsleep? && s.pc[w].WAsleep? {
      NeverBothAsleep(s, r, w);
      assert false;
    }
  }

  /** A step process p can take, when it is not idle or asleep and need not wait for another. */
  function Move(c: Pc, n: nat): Step {
    if c.RWant? || c.WWant? || c.CWant? then Acquire
    else if c.RIn? then ReadCheck
    else if c.RCopy? then ReadByte(true)
    else if c.WIn? then WriteByte(true)
    else if c.CIn? then CloseEnd
    else if c.RFall? || c.WFall? then FallAsleep
    else if InWake(c) && c.j < n then WakeOne
    else WakeDone
  }

  /** No deadlock: unless every process is idle or asleep, some process can take a step. */
  lemma SomeoneMoves(s: State, p: nat) returns (q: nat, st: Step)
    requires Inv(s) && p < |s.pc| && !Parked(s.pc[p])
    ensures q < |s.pc| && Enabled(s, q, st)
  {
    if s.lock == -1 {
      q := p;
    } else {
      q := s.lock;
      var c := s.pc[q];
      if InWake(c) && c.j < |s.pc| && (s.pc[c.j].RFall? || s.pc[c.j].WFall?) { q := c.j; }
    }
    st := Move(s.pc[q], |s.pc|);
  }

  /** Bytes come out in the order they went in; with no failed copyout they are all delivered. */
  lemma Fifo(ss: seq<State>, acts: seq<(nat, Step)>, n: nat, k: nat)
    requires Run(ss, acts) && k < |ss| && ss[0] == Start(n)
    ensures ss[k].taken <= ss[k].sent && |ss[k].sent| - |ss[k].taken| <= PIPESIZE
    ensures !ss[k].lost ==> ss[k].delivered <= ss[k].sent
    ensures ss[k].lost ==> exists j :: 0 <= j < k && acts[j].1 == ReadByte(false)
  {
    StartInv(n);
    RunInv(ss, acts, k);
    LostWhere(ss, acts, n, k);
  }

  lemma {:induction false} LostWhere(ss: seq<State>, acts: seq<(nat, Step)>, n: nat, k: nat)
    requires Run(ss, acts) && k < |ss| && ss[0] == Start(n)
    ensures ss[k].lost ==> exists j :: 0 <= j < k && acts[j].1 == ReadByte(false)
    decreases k
  {
    if k > 0 {
      LostWhere(ss, acts, n, k - 1);
      LostStep(ss[k - 1], acts[k - 1].0, acts[k - 1].1);
    }
  }

  lemma LostStep(s: State, p: nat, st: Step)
    requires p < |s.pc| && Enabled(s, p, st)
    ensures Do(s, p, st).lost ==> s.lost || st == ReadByte(false)
  {
  }

  /** The whole theorem for every run from a new pipe. */
  lemma NoLostWakeup(ss: seq<State>, acts: seq<(nat, Step)>, n: nat, k: nat, p: nat)
    requires Run(ss, acts) && k < |ss| && ss[0] == Start(n) && p < |ss[k].pc|
    ensures DataOk(ss[k], p) && RoomOk(ss[k], p)
    ensures forall r, w | 0 <= r < |ss[k].pc| && 0 <= w < |ss[k].pc| ::
      WaitsData(ss[k].pc[r]) && WaitsRoom(ss[k].pc[w]) ==>
      0 <= ss[k].lock < |ss[k].pc| && (OwesData(ss[k].pc[ss[k].lock], r) || OwesRoom(ss[k].pc[ss[k].lock], w))
  {
    StartInv(n);
    RunInv(ss, acts, k);
    forall r, w | 0 <= r < |ss[k].pc| && 0 <= w < |ss[k].pc| && WaitsData(ss[k].pc[r]) && WaitsRoom(ss[k].pc[w])
      ensures 0 <= ss[k].lock < |ss[k].pc| && (OwesData(ss[k].pc[ss[k].lock], r) || OwesRoom(ss[k].pc[ss[k].lock], w))
    {
      NeverBothAsleep(ss[k], r, w);
    }
  }

  // ---- kills ----

  /** pipewrite's return for a killed writer: the lock is released with no wakeup. */
  function KilledReturn(s: State, p: nat): State
    requires p < |s.pc| && s.pc[p].WIn?
  {
    s.(lock := -1, pc := s.pc[p := Idle])
  }

  /** It keeps the invariant exactly when no sleeping reader has been given anything to see. */
  lemma KilledWriter(s: State, p: nat)
    requires Inv(s) && p < |s.pc| && s.pc[p].WIn?
    ensures Inv(KilledReturn(s, p)) <==> (s.q == [] && s.writeopen) || forall k | 0 <= k < |s.pc| :: !WaitsData(s.pc[k])
  {
    var s' := KilledReturn(s, p);
    forall k | 0 <= k < |s.pc| ensures DataOk(s', k) <==> WaitsData(s.pc[k]) ==> s.q == [] && s.writeopen {
      assert DataOk(s, k) && s'.pc[k] == if k == p then Idle else s.pc[k];
    }
    forall k | 0 <= k < |s.pc| ensures RoomOk(s', k) { assert RoomOk(s, k); }
  }

  /** A run whose last state has a writer that can return killed and leave a reader asleep beside a byte: the reader
      falls asleep on the empty pipe, and the writer puts in one of its two bytes. */
  lemma KillLosesWakeup() returns (ss: seq<State>, acts: seq<(nat, Step)>)
    ensures Run(ss, acts) && ss[0] == Start(2)
    ensures var s := ss[|acts|];
      |s.pc| == 2 && s.pc[0].RAsleep? && s.pc[1].WIn? && s.q == [7] && s.writeopen && !Inv(KilledReturn(s, 1))
  {
    var s0 := Start(2);
    var s1 := Do(s0, 0, StartRead(1));
    var s2 := Do(s1, 0, Acquire);
    var s3 := Do(s2, 0, ReadCheck);
    var s4 := Do(s3, 0, FallAsleep);
    var s5 := Do(s4, 1, StartWrite([7, 8]));
    var s6 := Do(s5, 1, Acquire);
    var s7 := Do(s6, 1, WriteByte(true));
    ss := [s0, s1, s2, s3, s4, s5, s6, s7];
    acts := [(0, StartRead(1)), (0, Acquire), (0, ReadCheck), (0, FallAsleep), (1, StartWrite([7, 8])), (1, Acquire),
             (1, WriteByte(true))];
    assert !DataOk(KilledReturn(s7, 1), 0);
  }
}
