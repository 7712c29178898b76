/** What whole read, write and close calls on a pipe do, in every run of the step model. */
module PipeCalls {
  import opened Params
  import opened PipeSched

  /** What `b` has behind `a`. */
  function Added(a: seq<int>, b: seq<int>): seq<int> { if |a| <= |b| then b[|a|..] else [] }

  /** The bytes process `p` has put into the pipe in steps i to k. */
  ghost function Put(ss: seq<State>, acts: seq<(nat, Step)>, p: nat, i: nat, k: nat): seq<int>
    requires |ss| == |acts| + 1 && i <= k <= |acts|
  {
    if k == i then []
    else Put(ss, acts, p, i, k - 1) + if acts[k - 1].0 == p then Added(ss[k - 1].sent, ss[k].sent) else []
  }

  /** The bytes it has taken out, and those of them that reached the caller. */
  ghost function Got(ss: seq<State>, acts: seq<(nat, Step)>, p: nat, i: nat, k: nat): seq<int>
    requires |ss| == |acts| + 1 && i <= k <= |acts|
  {
    if k == i then []
    else Got(ss, acts, p, i, k - 1) + if acts[k - 1].0 == p then Added(ss[k - 1].taken, ss[k].taken) else []
  }

  ghost function Kept(ss: seq<State>, acts: seq<(nat, Step)>, p: nat, i: nat, k: nat): seq<int>
    requires |ss| == |acts| + 1 && i <= k <= |acts|
  {
    if k == i then []
    else Kept(ss, acts, p, i, k - 1) + if acts[k - 1].0 == p then Added(ss[k - 1].delivered, ss[k].delivered) else []
  }

  /** What a write call has still to put in. */
  function Left(c: Pc): seq<int> {
    match c
    case WWant(src) => src
    case WIn(src) => src
    case WWakeFull(_, src) => src
    case WFall(src) => src
    case WAsleep(src) => src
    case _ => []
  }

  // ---- write calls ----

  /** A call that another process's step leaves where it is, or wakes. */
  predicate Woke(c: Pc, c': Pc) { c' == c || (c.RAsleep? && c' == RWant(c.n)) || (c.WAsleep? && c' == WWant(c.src)) }

  lemma OtherStep(s: State, p: nat, q: nat, st: Step)
    requires p < |s.pc| && q < |s.pc| && q != p && Enabled(s, q, st)
    ensures |Do(s, q, st).pc| == |s.pc| && Woke(s.pc[p], Do(s, q, st).pc[p])
  {
    if st != WakeOne {
      hide DoWakeOne, Woken;
      OwnStep(s, p, q, st);
    }
  }

  /** All steps but a turn of wakeup move their own process only. */
  lemma OwnStep(s: State, p: nat, q: nat, st: Step)
    requires p < |s.pc| && q < |s.pc| && q != p && Enabled(s, q, st) && st != WakeOne
    ensures |Do(s, q, st).pc| == |s.pc| && Do(s, q, st).pc[p] == s.pc[p]
  {
    hide DoReadByte, DoWriteByte, DoWakeOne, Woken;
    match st
    case ReadByte(ok) => ReadFrame(s, p, q, ok);
    case WriteByte(ok) => WriteFrame(s, p, q, ok);
    case _ =>
  }

  lemma ReadFrame(s: State, p: nat, q: nat, ok: bool)
    requires p < |s.pc| && q < |s.pc| && s.pc[q].RCopy?
    ensures |DoReadByte(s, q, ok).pc| == |s.pc| && DoReadByte(s, q, ok).sent == s.sent
    ensures q != p ==> DoReadByte(s, q, ok).pc[p] == s.pc[p]
  {
  }

  lemma WriteFrame(s: State, p: nat, q: nat, ok: bool)
    requires p < |s.pc| && q < |s.pc| && s.pc[q].WIn?
    ensures |DoWriteByte(s, q, ok).pc| == |s.pc| && DoWriteByte(s, q, ok).taken == s.taken
    ensures q != p ==> DoWriteByte(s, q, ok).pc[p] == s.pc[p]
  {
  }

  /** What a step of the writer itself puts in is the front of what was left. */
  ghost predicate Writes(s: State, s': State, p: nat, st: Step)
    requires p < |s.pc| == |s'.pc|
  {
    var put := Added(s.sent, s'.sent);
    if !Writing(s'.pc[p]) then s'.pc[p].Idle? && put == [] && (s.pc[p].WWakeEnd? || !s.readopen)
    else if st == WriteByte(false)
    then s.pc[p].WIn? && put == [] && (s'.pc[p].WWakeEnd? || Left(s'.pc[p]) == Left(s.pc[p]))
    else put + Left(s'.pc[p]) == Left(s.pc[p]) && (s.pc[p].WWakeEnd? ==> s'.pc[p].WWakeEnd?)
  }

  lemma WriteStep(s: State, p: nat, st: Step)
    requires p < |s.pc| && Enabled(s, p, st) && Writing(s.pc[p])
    ensures |Do(s, p, st).pc| == |s.pc| && Writes(s, Do(s, p, st), p, st)
  {
    match st
    case WriteByte(ok) => WriteTurn(s, p, ok);
    case _ => WriteQuiet(s, p, st);
  }

  lemma PutFacts(s: State, p: nat, ok: bool)
    requires p < |s.pc| && s.pc[p].WIn?
    ensures var src, s' := s.pc[p].src, DoWriteByte(s, p, ok);
      && |s'.pc| == |s.pc|
      && if src != [] && s.readopen && |s.q| != PIPESIZE && ok
         then s'.pc[p] == WIn(src[1..]) && s'.sent == s.sent + [src[0]]
         else
           && s'.sent == s.sent
           && s'.pc[p] == if src == [] then WWakeEnd(0) else if !s.readopen then Idle
                          else if |s.q| == PIPESIZE then WWakeFull(0, src) else WWakeEnd(0)
  {
  }

  lemma WriteTurn(s: State, p: nat, ok: bool)
    requires p < |s.pc| && s.pc[p].WIn?
    ensures |DoWriteByte(s, p, ok).pc| == |s.pc| && Writes(s, DoWriteByte(s, p, ok), p, WriteByte(ok))
  {
    hide DoWriteByte;
    PutFacts(s, p, ok);
    var src, s' := s.pc[p].src, DoWriteByte(s, p, ok);
    if src != [] && s.readopen && |s.q| != PIPESIZE && ok {
      assert Added(s.sent, s'.sent) == [src[0]] && [src[0]] + src[1..] == src;
    } else {
      AddedNone(s.sent, []);
    }
  }

  /** The other steps of a write call. */
  lemma WriteMoves(s: State, p: nat, st: Step)
    requires p < |s.pc| && Enabled(s, p, st) && Writing(s.pc[p]) && !st.WriteByte?
    ensures var s' := Do(s, p, st);
      && |s'.pc| == |s.pc| && s'.sent == s.sent
      && match s.pc[p]
         case WWant(src) => s'.pc[p] == WIn(src)
         case WWakeFull(j, src) => s'.pc[p] == WWakeFull(j + 1, src) || s'.pc[p] == WFall(src)
         case WFall(src) => s'.pc[p] == WAsleep(src)
         case WWakeEnd(j) => s'.pc[p] == WWakeEnd(j + 1) || s'.pc[p] == Idle
         case _ => false
  {
    hide DoWriteByte, DoReadByte, Woken, DoCloseEnd, DoStartClose, DoReadCheck;
  }

  lemma WriteQuiet(s: State, p: nat, st: Step)
    requires p < |s.pc| && Enabled(s, p, st) && Writing(s.pc[p]) && !st.WriteByte?
    ensures |Do(s, p, st).pc| == |s.pc| && Writes(s, Do(s, p, st), p, st)
  {
    WriteMoves(s, p, st);
    hide Do, Enabled;
    AddedNone(s.sent, []);
  }

  lemma AddedNone(a: seq<int>, got: seq<int>)
    ensures got + Added(a, a) == got && Added(a, a) == []
  {
  }

  ghost predicate Failed(acts: seq<(nat, Step)>, p: nat, i: nat, k: nat)
    requires i <= k <= |acts|
  {
    exists j :: i <= j < k && acts[j] == (p, WriteByte(false))
  }

  /** The call that process `p` began in step `i` is still running before step `k`. */
  ghost predicate InWrite(ss: seq<State>, p: nat, i: nat, k: nat)
    requires k < |ss|
  {
    forall j | i < j <= k :: p < |ss[j].pc| && Writing(ss[j].pc[p])
  }

  /** While a write call runs, what it has put in and what is left are its source; it ends with something left only
      after a failed copyin. */
  lemma {:induction false} WritePuts(ss: seq<State>, acts: seq<(nat, Step)>, p: nat, i: nat, k: nat, src: seq<int>)
    requires Run(ss, acts) && i < k <= |acts| && acts[i] == (p, StartWrite(src)) && InWrite(ss, p, i, k)
    ensures var put := Put(ss, acts, p, i + 1, k);
      || put + Left(ss[k].pc[p]) == src
      || (ss[k].pc[p].WWakeEnd? && put <= src && Failed(acts, p, i + 1, k))
    decreases k
  {
    hide Do, Enabled, Writes, Failed;
    if k > i + 1 {
      WritePuts(ss, acts, p, i, k - 1, src);
      assert Writing(ss[k - 1].pc[p]) && Writing(ss[k].pc[p]);
      if acts[k - 1].0 == p {
        WriteStep(ss[k - 1], p, acts[k - 1].1);
        PutsOn(ss, acts, p, i, k, src);
      } else {
        OtherStep(ss[k - 1], p, acts[k - 1].0, acts[k - 1].1);
        FailedMore(acts, p, i + 1, k);
      }
    } else {
      StartsWrite(ss, acts, p, i, src);
    }
  }

  lemma StartsWrite(ss: seq<State>, acts: seq<(nat, Step)>, p: nat, i: nat, src: seq<int>)
    requires Run(ss, acts) && i < |acts| && acts[i] == (p, StartWrite(src))
    ensures p < |ss[i + 1].pc| && ss[i + 1].pc[p] == WWant(src)
  {
  }

  lemma FailedMore(acts: seq<(nat, Step)>, p: nat, i: nat, k: nat)
    requires i < k <= |acts|
    ensures Failed(acts, p, i, k) <==> Failed(acts, p, i, k - 1) || acts[k - 1] == (p, WriteByte(false))
  {
  }

  lemma PutsOn(ss: seq<State>, acts: seq<(nat, Step)>, p: nat, i: nat, k: nat, src: seq<int>)
    requires |ss| == |acts| + 1 && i + 1 < k <= |acts| && acts[k - 1].0 == p && p < |ss[k].pc| == |ss[k - 1].pc|
    requires Writes(ss[k - 1], ss[k], p, acts[k - 1].1) && Writing(ss[k - 1].pc[p]) && Writing(ss[k].pc[p])
    requires var put := Put(ss, acts, p, i + 1, k - 1);
      || put + Left(ss[k - 1].pc[p]) == src
      || (ss[k - 1].pc[p].WWakeEnd? && put <= src && Failed(acts, p, i + 1, k - 1))
    ensures var put := Put(ss, acts, p, i + 1, k);
      || put + Left(ss[k].pc[p]) == src
      || (ss[k].pc[p].WWakeEnd? && put <= src && Failed(acts, p, i + 1, k))
  {
    hide Failed, Writes, Left, Added, Writing;
    FailedMore(acts, p, i + 1, k);
    PutsNext(ss[k - 1], ss[k], p, acts[k - 1].1, Put(ss, acts, p, i + 1, k - 1), src, Failed(acts, p, i + 1, k - 1));
  }

  lemma PutsNext(s: State, s': State, p: nat, st: Step, put: seq<int>, src: seq<int>, failed: bool)
    requires p < |s.pc| == |s'.pc| && Writes(s, s', p, st) && Writing(s.pc[p]) && Writing(s'.pc[p])
    requires put + Left(s.pc[p]) == src || (s.pc[p].WWakeEnd? && put <= src && failed)
    ensures var put' := put + Added(s.sent, s'.sent);
      || put' + Left(s'.pc[p]) == src
      || (s'.pc[p].WWakeEnd? && put' <= src && (failed || st == WriteByte(false)))
  {
    hide Added;
    var more := Added(s.sent, s'.sent);
    assert put + more + Left(s'.pc[p]) == put + (more + Left(s'.pc[p]));
  }

  /** A write call returns when its source is in the pipe, after a failed copyin, or because the read end is closed. */
  lemma WriteReturns(ss: seq<State>, acts: seq<(nat, Step)>, p: nat, i: nat, k: nat, src: seq<int>)
    requires Run(ss, acts) && i < k < |acts| && acts[i] == (p, StartWrite(src)) && InWrite(ss, p, i, k)
    requires p < |ss[k + 1].pc| && !Writing(ss[k + 1].pc[p])
    ensures var put := Put(ss, acts, p, i + 1, k + 1);
      && ss[k + 1].pc[p].Idle? && put <= src
      && (put == src || Failed(acts, p, i + 1, k) || !ss[k].readopen)
  {
    WritePuts(ss, acts, p, i, k, src);
    if acts[k].0 == p {
      WriteStep(ss[k], p, acts[k].1);
    } else {
      OtherStep(ss[k], p, acts[k].0, acts[k].1);
    }
  }

  // ---- everything one writer writes ----

  /** The sources of the write calls process `p` began in the first k steps, one after the other. */
  ghost function Sources(acts: seq<(nat, Step)>, p: nat, k: nat): seq<int>
    requires k <= |acts|
  {
    if k == 0 then []
    else Sources(acts, p, k - 1) + if acts[k - 1].0 == p && acts[k - 1].1.StartWrite? then acts[k - 1].1.src else []
  }

  /** A step that neither fails to copy in nor finds the read end closed. */
  lemma SmoothStep(s: State, p: nat, st: Step)
    requires p < |s.pc| && Enabled(s, p, st) && st != WriteByte(false) && (Do(s, p, st).readopen || !st.WriteByte?)
    ensures var s' := Do(s, p, st);
      && |s'.pc| == |s.pc|
      && Added(s.sent, s'.sent) + Left(s'.pc[p]) == Left(s.pc[p]) + if st.StartWrite? then st.src else []
  {
    hide DoWriteByte, DoReadByte, Woken;
    if Writing(s.pc[p]) {
      WriteStep(s, p, st);
      if st.WriteByte? { OpenStays(s, p, st); }
    } else {
      var s' := Do(s, p, st);
      QuietSent(s, p, st);
      assert Added(s.sent, s'.sent) == [];
      if st.StartWrite? { assert [] + Left(s'.pc[p]) == Left(s.pc[p]) + st.src; }
    }
  }

  lemma QuietSent(s: State, p: nat, st: Step)
    requires p < |s.pc| && Enabled(s, p, st) && !st.WriteByte?
    ensures Do(s, p, st).sent == s.sent && |Do(s, p, st).pc| == |s.pc|
    ensures !Writing(s.pc[p]) && !st.StartWrite? ==> Left(Do(s, p, st).pc[p]) == [] && !Writing(Do(s, p, st).pc[p])
  {
    hide DoWriteByte, DoReadByte, Woken;
    if st.ReadByte? { ReadFrame(s, p, p, st.ok); ReadPc(s, p, st.ok); }
  }

  lemma ReadPc(s: State, p: nat, ok: bool)
    requires p < |s.pc| && s.pc[p].RCopy?
    ensures DoReadByte(s, p, ok).pc[p].RCopy? || DoReadByte(s, p, ok).pc[p].RWake?
  {
  }

  /** A closed end stays closed. */
  lemma OpenStays(s: State, q: nat, st: Step)
    requires q < |s.pc| && Enabled(s, q, st)
    ensures Do(s, q, st).readopen ==> s.readopen
    ensures Do(s, q, st).writeopen ==> s.writeopen
  {
  }

  lemma {:induction false} OpenBefore(ss: seq<State>, acts: seq<(nat, Step)>, j: nat, k: nat)
    requires Run(ss, acts) && j <= k < |ss|
    ensures ss[k].readopen ==> ss[j].readopen
    ensures ss[k].writeopen ==> ss[j].writeopen
    decreases k
  {
    hide Do, Enabled;
    if j < k {
      OpenBefore(ss, acts, j, k - 1);
      OpenStays(ss[k - 1], acts[k - 1].0, acts[k - 1].1);
    }
  }

  lemma {:induction false} SameSize(ss: seq<State>, acts: seq<(nat, Step)>, k: nat)
    requires Run(ss, acts) && k < |ss|
    ensures |ss[k].pc| == |ss[0].pc|
    decreases k
  {
    hide Do, Enabled;
    if k > 0 {
      SameSize(ss, acts, k - 1);
      KeepsSize(ss[k - 1], acts[k - 1].0, acts[k - 1].1);
    }
  }

  lemma KeepsSize(s: State, q: nat, st: Step)
    requires q < |s.pc| && Enabled(s, q, st)
    ensures |Do(s, q, st).pc| == |s.pc|
  {
    hide DoWriteByte, DoReadByte, DoWakeOne;
    if st.WriteByte? { WriteFrame(s, q, q, st.ok); } else { QuietSent(s, q, st); }
  }

  /** Over a whole run: what a process has put in, and what its running call has left, are the sources of its write
      calls in order, as long as no copyin of it fails and the read end is open. */
  lemma {:induction false} WriterStream(ss: seq<State>, acts: seq<(nat, Step)>, n: nat, p: nat, k: nat)
    requires Run(ss, acts) && ss[0] == Start(n) && p < n && k <= |acts| && ss[k].readopen
    requires forall j | 0 <= j < k :: acts[j] != (p, WriteByte(false))
    ensures |ss[k].pc| == n && Put(ss, acts, p, 0, k) + Left(ss[k].pc[p]) == Sources(acts, p, k)
    decreases k
  {
    hide Do, Enabled;
    SameSize(ss, acts, k);
    if k > 0 {
      var s, q, st := ss[k - 1], acts[k - 1].0, acts[k - 1].1;
      OpenStays(s, q, st);
      WriterStream(ss, acts, n, p, k - 1);
      var put, more := Put(ss, acts, p, 0, k - 1), Added(s.sent, ss[k].sent);
      if q == p {
        SmoothStep(s, p, st);
        assert put + more + Left(ss[k].pc[p]) == put + (more + Left(ss[k].pc[p]));
        assert put + (Left(s.pc[p]) + if st.StartWrite? then st.src else []) ==
          put + Left(s.pc[p]) + if st.StartWrite? then st.src else [];
      } else {
        OtherStep(s, p, q, st);
        assert put + [] == put && Sources(acts, p, k - 1) + [] == Sources(acts, p, k - 1);
      }
    }
  }

  /** Only process `p` begins write calls. */
  ghost predicate OneWriter(acts: seq<(nat, Step)>, p: nat, k: nat)
    requires k <= |acts|
  {
    forall j | 0 <= j < k :: acts[j].1.StartWrite? ==> acts[j].0 == p
  }

  lemma {:induction false} OnlyPut(ss: seq<State>, acts: seq<(nat, Step)>, n: nat, p: nat, k: nat)
    requires Run(ss, acts) && ss[0] == Start(n) && p < n && k <= |acts| && OneWriter(acts, p, k)
    ensures |ss[k].pc| == n && Put(ss, acts, p, 0, k) == ss[k].sent
    ensures forall q | 0 <= q < n && q != p :: !Writing(ss[k].pc[q])
    decreases k
  {
    hide Do, Enabled;
    SameSize(ss, acts, k);
    if k > 0 {
      var s, q, st := ss[k - 1], acts[k - 1].0, acts[k - 1].1;
      OnlyPut(ss, acts, n, p, k - 1);
      SentGrows(s, q, st);
      forall r | 0 <= r < n && r != p ensures !Writing(ss[k].pc[r]) {
        if r == q { OnlyStart(s, q, st); } else { OtherStep(s, r, q, st); }
      }
      if q != p { OnlyStart(s, q, st); }
    }
  }

  lemma SentGrows(s: State, q: nat, st: Step)
    requires q < |s.pc| && Enabled(s, q, st)
    ensures Do(s, q, st).sent == s.sent + Added(s.sent, Do(s, q, st).sent)
  {
    hide DoReadByte;
    if st.ReadByte? { ReadFrame(s, q, q, st.ok); }
  }

  lemma OnlyStart(s: State, q: nat, st: Step)
    requires q < |s.pc| && Enabled(s, q, st) && !Writing(s.pc[q]) && !st.StartWrite?
    ensures |Do(s, q, st).pc| == |s.pc| && !Writing(Do(s, q, st).pc[q]) && Do(s, q, st).sent == s.sent
  {
    hide Do;
    QuietSent(s, q, st);
  }

  /** With one writer, every byte of its write calls is taken, in the pipe, or still to be written, in that order. */
  lemma Transfer(ss: seq<State>, acts: seq<(nat, Step)>, n: nat, p: nat, k: nat)
    requires Run(ss, acts) && ss[0] == Start(n) && p < n && k <= |acts| && ss[k].readopen && OneWriter(acts, p, k)
    requires forall j | 0 <= j < k :: acts[j] != (p, WriteByte(false))
    ensures |ss[k].pc| == n && ss[k].taken + ss[k].q + Left(ss[k].pc[p]) == Sources(acts, p, k)
    ensures !ss[k].lost ==> ss[k].delivered <= Sources(acts, p, k)
  {
    hide Do, Enabled, LockOk, EndsOk, DataOk, RoomOk;
    StartInv(n);
    RunInv(ss, acts, k);
    WriterStream(ss, acts, n, p, k);
    OnlyPut(ss, acts, n, p, k);
  }

  // ---- read calls ----

  /** The call found the pipe empty with room left; a copyout of it failed. */
  ghost predicate Drained(ss: seq<State>, acts: seq<(nat, Step)>, p: nat, i: nat, k: nat)
    requires |ss| == |acts| + 1 && i <= k <= |acts|
  {
    exists j :: i <= j < k && acts[j].0 == p && acts[j].1.ReadByte? && ss[j].q == []
  }

  ghost predicate Spilled(ss: seq<State>, acts: seq<(nat, Step)>, p: nat, i: nat, k: nat)
    requires |ss| == |acts| + 1 && i <= k <= |acts|
  {
    exists j :: i <= j < k && acts[j] == (p, ReadByte(false)) && ss[j].taken < ss[j + 1].taken
  }

  ghost predicate Ends(a: seq<int>, b: seq<int>) { |b| <= |a| && a[|a| - |b|..] == b }

  /** A read call of n bytes that has taken `got`, of which `kept` reached the caller. */
  ghost predicate ReadSoFar(s: State, c: Pc, n: nat, got: seq<int>, kept: seq<int>, drained: bool, spilled: bool) {
    match c
    case RWant(m) => m == n && got == [] == kept
    case RIn(m) => m == n && got == [] == kept
    case RFall(m) => m == n && got == [] == kept
    case RAsleep(m) => m == n && got == [] == kept
    case RCopy(left) =>
      |got| + left == n && kept == got && Ends(s.taken, got) && (got == [] ==> s.q != [] || !s.writeopen)
    case RWake(_) =>
      && |got| <= n && Ends(s.taken, got) && (|got| == n || drained || spilled)
      && (got == [] && n > 0 ==> !s.writeopen)
      && (kept == got || (spilled && got != [] && kept == got[..|got| - 1]))
    case _ => false
  }

  /** One turn of the copying loop. */
  lemma TurnFacts(s: State, p: nat, ok: bool)
    requires p < |s.pc| && s.pc[p].RCopy?
    ensures var s' := DoReadByte(s, p, ok);
      && |s'.pc| == |s.pc| && s'.writeopen == s.writeopen
      && if s.pc[p].left == 0 || s.q == []
         then s'.taken == s.taken && s'.delivered == s.delivered && s'.pc[p] == RWake(0)
         else
           && s'.taken == s.taken + [s.q[0]] && s'.delivered == s.delivered + (if ok then [s.q[0]] else [])
           && s'.pc[p] == if ok then RCopy(s.pc[p].left - 1) else RWake(0)
  {
  }

  lemma ReadTurn(s: State, p: nat, ok: bool, n: nat, got: seq<int>, kept: seq<int>, drained: bool, spilled: bool)
    requires p < |s.pc| && s.pc[p].RCopy? && ReadSoFar(s, s.pc[p], n, got, kept, drained, spilled)
    ensures var s' := DoReadByte(s, p, ok);
      && |s'.pc| == |s.pc|
      && ReadSoFar(s', s'.pc[p], n, got + Added(s.taken, s'.taken), kept + Added(s.delivered, s'.delivered),
                   drained || s.q == [], spilled || (!ok && s.taken < s'.taken))
  {
    hide DoReadByte, Added, Ends;
    TurnFacts(s, p, ok);
    var s' := DoReadByte(s, p, ok);
    if s.pc[p].left == 0 || s.q == [] {
      AddedNone(s.taken, got);
      AddedNone(s.delivered, kept);
    } else {
      var x := s.q[0];
      TakeOne(s.taken, got, x);
      TakeOne(s.delivered, kept, x);
      AddedNone(s.delivered, kept);
    }
  }

  lemma TakeOne(a: seq<int>, got: seq<int>, x: int)
    ensures a < a + [x] && Added(a, a + [x]) == [x] && (got + [x])[..|got|] == got && a + [] == a
    ensures Ends(a, got) ==> Ends(a + [x], got + [x])
  {
    if Ends(a, got) { assert (a + [x])[|a| - |got|..] == a[|a| - |got|..] + [x]; }
  }

  /** The steps of a read call before and after the copying. */
  lemma ReadMoves(s: State, p: nat, st: Step)
    requires p < |s.pc| && Enabled(s, p, st) && !st.ReadByte? && Reading(s.pc[p])
    ensures var s' := Do(s, p, st);
      && |s'.pc| == |s.pc| && s'.taken == s.taken && s'.delivered == s.delivered && s'.q == s.q
      && s'.writeopen == s.writeopen
      && match s.pc[p]
         case RWant(n) => s'.pc[p] == RIn(n)
         case RIn(n) => s'.pc[p] == if s.q == [] && s.writeopen then RFall(n) else RCopy(n)
         case RFall(n) => s'.pc[p] == RAsleep(n)
         case RWake(j) => s'.pc[p] == RWake(j + 1) || s'.pc[p] == Idle
         case _ => false
  {
    hide DoReadByte, DoWriteByte, Woken, DoCloseEnd, DoStartClose;
  }

  lemma ReadQuiet(s: State, p: nat, st: Step, n: nat, got: seq<int>, kept: seq<int>, drained: bool, spilled: bool)
    requires p < |s.pc| && Enabled(s, p, st) && !st.ReadByte? && Reading(s.pc[p])
    requires ReadSoFar(s, s.pc[p], n, got, kept, drained, spilled)
    ensures var s' := Do(s, p, st);
      && |s'.pc| == |s.pc| && s'.taken == s.taken && s'.delivered == s.delivered
      && (Reading(s'.pc[p]) ==> ReadSoFar(s', s'.pc[p], n, got, kept, drained, spilled))
      && (!Reading(s'.pc[p]) ==> s'.pc[p].Idle? && s.pc[p].RWake?)
  {
    ReadMoves(s, p, st);
    hide Do, Enabled;
  }

  /** While a read call holds the lock no other process takes bytes, adds bytes or opens an end. */
  lemma ReadOther(s: State, p: nat, q: nat, st: Step, n: nat, got: seq<int>, kept: seq<int>, drained: bool,
                  spilled: bool)
    requires LockOk(s) && p < |s.pc| && q < |s.pc| && q != p && Enabled(s, q, st)
    requires ReadSoFar(s, s.pc[p], n, got, kept, drained, spilled)
    ensures var s' := Do(s, q, st); |s'.pc| == |s.pc| && ReadSoFar(s', s'.pc[p], n, got, kept, drained, spilled)
  {
    OtherStep(s, p, q, st);
    OpenStays(s, q, st);
    if Holding(s.pc[p]) { LockedOut(s, p, q, st); }
    hide Do;
  }

  lemma LockedOut(s: State, p: nat, q: nat, st: Step)
    requires LockOk(s) && p < |s.pc| && q < |s.pc| && q != p && Enabled(s, q, st) && Holding(s.pc[p])
    ensures Do(s, q, st).taken == s.taken && Do(s, q, st).q == s.q
  {
    hide DoReadByte, DoWriteByte, DoWakeOne;
    assert !Holding(s.pc[q]);
  }

  ghost predicate InRead(ss: seq<State>, p: nat, i: nat, k: nat)
    requires k < |ss|
  {
    forall j | i < j <= k :: p < |ss[j].pc| && Reading(ss[j].pc[p])
  }

  /** A read call takes at most n bytes, next to each other in the stream; it stops earlier only on an empty pipe or a
      failed copyout, and takes nothing only when the write end is closed. */
  lemma {:induction false} ReadTakes(ss: seq<State>, acts: seq<(nat, Step)>, p: nat, i: nat, k: nat, n: nat)
    requires Run(ss, acts) && Inv(ss[0]) && i < k <= |acts| && acts[i] == (p, StartRead(n)) && InRead(ss, p, i, k)
    ensures ReadSoFar(ss[k], ss[k].pc[p], n, Got(ss, acts, p, i + 1, k), Kept(ss, acts, p, i + 1, k),
                      Drained(ss, acts, p, i + 1, k), Spilled(ss, acts, p, i + 1, k))
    decreases k
  {
    hide Do, Enabled, ReadSoFar, Drained, Spilled, Inv, Added;
    if k > i + 1 {
      var s, q, st := ss[k - 1], acts[k - 1].0, acts[k - 1].1;
      var got, kept := Got(ss, acts, p, i + 1, k - 1), Kept(ss, acts, p, i + 1, k - 1);
      ReadTakes(ss, acts, p, i, k - 1, n);
      assert Reading(s.pc[p]) && Reading(ss[k].pc[p]);
      DrainedMore(ss, acts, p, i + 1, k);
      if q == p {
        ReadOwn(s, p, st, n, got, kept, Drained(ss, acts, p, i + 1, k - 1), Spilled(ss, acts, p, i + 1, k - 1));
      } else {
        RunInv(ss, acts, k - 1);
        InvLock(s);
        ReadOther(s, p, q, st, n, got, kept, Drained(ss, acts, p, i + 1, k - 1), Spilled(ss, acts, p, i + 1, k - 1));
        assert got + [] == got && kept + [] == kept;
      }
    } else {
      StartsRead(ss, acts, p, i, n);
    }
  }

  lemma InvLock(s: State)
    requires Inv(s)
    ensures LockOk(s)
  {
  }

  lemma ReadOwn(s: State, p: nat, st: Step, n: nat, got: seq<int>, kept: seq<int>, drained: bool, spilled: bool)
    requires p < |s.pc| && Enabled(s, p, st) && Reading(s.pc[p])
    requires ReadSoFar(s, s.pc[p], n, got, kept, drained, spilled)
    ensures var s' := Do(s, p, st);
      && |s'.pc| == |s.pc|
      && (Reading(s'.pc[p]) ==>
            ReadSoFar(s', s'.pc[p], n, got + Added(s.taken, s'.taken), kept + Added(s.delivered, s'.delivered),
                      drained || (st.ReadByte? && s.q == []), spilled || (st == ReadByte(false) && s.taken < s'.taken)))
  {
    hide ReadSoFar, DoReadByte;
    if st.ReadByte? {
      ReadTurn(s, p, st.ok, n, got, kept, drained, spilled);
    } else {
      ReadQuiet(s, p, st, n, got, kept, drained, spilled);
      AddedNone(s.taken, got);
      AddedNone(s.delivered, kept);
    }
  }

  lemma StartsRead(ss: seq<State>, acts: seq<(nat, Step)>, p: nat, i: nat, n: nat)
    requires Run(ss, acts) && i < |acts| && acts[i] == (p, StartRead(n))
    ensures p < |ss[i + 1].pc| && ss[i + 1].pc[p] == RWant(n)
    ensures ReadSoFar(ss[i + 1], RWant(n), n, Got(ss, acts, p, i + 1, i + 1), Kept(ss, acts, p, i + 1, i + 1),
                      Drained(ss, acts, p, i + 1, i + 1), Spilled(ss, acts, p, i + 1, i + 1))
  {
  }

  lemma DrainedMore(ss: seq<State>, acts: seq<(nat, Step)>, p: nat, i: nat, k: nat)
    requires |ss| == |acts| + 1 && i < k <= |acts|
    ensures Drained(ss, acts, p, i, k) <==>
      Drained(ss, acts, p, i, k - 1) || (acts[k - 1].0 == p && acts[k - 1].1.ReadByte? && ss[k - 1].q == [])
    ensures Spilled(ss, acts, p, i, k) <==>
      Spilled(ss, acts, p, i, k - 1) || (acts[k - 1] == (p, ReadByte(false)) && ss[k - 1].taken < ss[k].taken)
  {
  }

  /** What a read call has done when it returns. */
  lemma ReadReturns(ss: seq<State>, acts: seq<(nat, Step)>, p: nat, i: nat, k: nat, n: nat)
    requires Run(ss, acts) && Inv(ss[0]) && i < k < |acts| && acts[i] == (p, StartRead(n)) && InRead(ss, p, i, k)
    requires p < |ss[k + 1].pc| && !Reading(ss[k + 1].pc[p])
    ensures var got, kept := Got(ss, acts, p, i + 1, k + 1), Kept(ss, acts, p, i + 1, k + 1);
      && ss[k + 1].pc[p].Idle? && |got| <= n && Ends(ss[k + 1].taken, got)
      && (|got| == n || Drained(ss, acts, p, i + 1, k) || Spilled(ss, acts, p, i + 1, k))
      && (got == [] && n > 0 ==> !ss[k].writeopen)
      && (kept == got || (Spilled(ss, acts, p, i + 1, k) && got != [] && kept == got[..|got| - 1]))
  {
    hide Do, Enabled, Drained, Spilled, Inv, ReadSoFar, Ends;
    ReadTakes(ss, acts, p, i, k, n);
    var s, q, st := ss[k], acts[k].0, acts[k].1;
    if q == p {
      var got, kept := Got(ss, acts, p, i + 1, k), Kept(ss, acts, p, i + 1, k);
      KeepsSize(s, p, st);
      ReadLast(s, p, st, n, got, kept, Drained(ss, acts, p, i + 1, k), Spilled(ss, acts, p, i + 1, k));
      AddedNone(s.taken, got);
      AddedNone(s.delivered, kept);
    } else {
      OtherStep(s, p, q, st);
    }
  }

  lemma ReadLast(s: State, p: nat, st: Step, n: nat, got: seq<int>, kept: seq<int>, drained: bool, spilled: bool)
    requires p < |s.pc| && Enabled(s, p, st) && Reading(s.pc[p])
    requires |Do(s, p, st).pc| == |s.pc| && !Reading(Do(s, p, st).pc[p])
    requires ReadSoFar(s, s.pc[p], n, got, kept, drained, spilled)
    ensures var s' := Do(s, p, st);
      && s'.pc[p].Idle? && |got| <= n && Ends(s'.taken, got) && (|got| == n || drained || spilled)
      && (got == [] && n > 0 ==> !s.writeopen)
      && (kept == got || (spilled && got != [] && kept == got[..|got| - 1]))
      && s'.taken == s.taken && s'.delivered == s.delivered
  {
    hide Do, Enabled, Ends;
    if st.ReadByte? {
      ReadsOn(s, p, st);
    } else {
      ReadQuiet(s, p, st, n, got, kept, drained, spilled);
    }
  }

  lemma ReadsOn(s: State, p: nat, st: Step)
    requires p < |s.pc| && Enabled(s, p, st) && st.ReadByte?
    ensures |Do(s, p, st).pc| == |s.pc| && Reading(Do(s, p, st).pc[p])
  {
    hide DoReadByte;
    ReadFrame(s, p, p, st.ok);
    ReadPc(s, p, st.ok);
  }
}
