/** The queue of the pipe's step model is the buffer with wrapping counters: what each step does to pi->data. */
module PipeLink {
  import opened Params
  import Pipe
  import opened PipeSched

  /** pi->data after a step: a byte that is written goes to the slot of the 32-bit counter nwrite. */
  ghost function DataAfter(s: State, p: nat, st: Step, data: seq<int>): seq<int>
    requires p < |s.pc| && Enabled(s, p, st) && |data| == PIPESIZE
  {
    if |Do(s, p, st).sent| > |s.sent| then data[|s.sent| % WORD32 % PIPESIZE := Do(s, p, st).sent[|s.sent|]] else data
  }

  lemma HoldsSize(data: seq<int>, q: seq<int>, taken: nat)
    requires Pipe.Holds(data, q, taken)
    ensures |data| == PIPESIZE && |q| <= PIPESIZE
  {
  }

  /** What a step can do to the queue. */
  ghost predicate Queues(s: State, s': State) {
    || (s'.q == s.q && s'.sent == s.sent && s'.taken == s.taken)
    || (|s.q| < PIPESIZE && |s'.sent| == |s.sent| + 1 && s'.q == s.q + [s'.sent[|s.sent|]] && s'.taken == s.taken)
    || (s.q != [] && s'.q == s.q[1..] && s'.sent == s.sent && s'.taken == s.taken + [s.q[0]])
  }

  lemma WriteQueue(s: State, p: nat, ok: bool)
    requires p < |s.pc| && s.pc[p].WIn? && |s.q| <= PIPESIZE
    ensures Queues(s, DoWriteByte(s, p, ok))
  {
  }

  lemma ReadQueue(s: State, p: nat, ok: bool)
    requires p < |s.pc| && s.pc[p].RCopy?
    ensures Queues(s, DoReadByte(s, p, ok))
  {
  }

  lemma QueueStep(s: State, p: nat, st: Step)
    requires p < |s.pc| && Enabled(s, p, st) && |s.q| <= PIPESIZE
    ensures Queues(s, Do(s, p, st))
  {
    hide DoReadByte, DoWriteByte;
    match st
    case ReadByte(ok) => ReadQueue(s, p, ok);
    case WriteByte(ok) => WriteQueue(s, p, ok);
    case _ =>
      var s' := Do(s, p, st);
      assert s'.q == s.q && s'.sent == s.sent && s'.taken == s.taken;
  }

  /** Every step keeps the queue in the buffer, takes bytes from the slot of nread, and decides full and empty as the
      wrapped counters do. */
  lemma BufferStep(s: State, p: nat, st: Step, data: seq<int>)
    requires Inv(s) && p < |s.pc| && Enabled(s, p, st) && Pipe.Holds(data, s.q, |s.taken|)
    ensures var s' := Do(s, p, st);
      && Pipe.Holds(DataAfter(s, p, st, data), s'.q, |s'.taken|)
      && (s'.taken == s.taken || s'.taken == s.taken + [data[|s.taken| % WORD32 % PIPESIZE]])
    ensures |s.q| == PIPESIZE <==> |s.sent| % WORD32 == (|s.taken| % WORD32 + PIPESIZE) % WORD32
    ensures s.q == [] <==> |s.sent| % WORD32 == |s.taken| % WORD32
  {
    hide LockOk, EndsOk, DataOk, RoomOk, Do, Enabled, Pipe.Holds;
    QueueStep(s, p, st);
    Pipe.WrapTests(|s.sent|, |s.taken|);
    Pipe.WrapSlot(|s.sent|);
    Pipe.WrapSlot(|s.taken|);
    var s' := Do(s, p, st);
    HoldsSize(data, s.q, |s.taken|);
    if |s'.sent| > |s.sent| {
      Pipe.PutHolds(data, s.q, |s.taken|, s'.sent[|s.sent|]);
    } else if |s'.taken| > |s.taken| {
      Pipe.GetHolds(data, s.q, |s.taken|);
    }
  }
}
