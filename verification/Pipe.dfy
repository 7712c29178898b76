/** The pipe's ring of 512 bytes under its lock: 32-bit wrapping counters refine an unbounded history. */
module Pipe {
  import opened Params

  /** pi->data holds the queue `q` starting at the position of counter `taken`. */
  ghost predicate Holds(data: seq<int>, q: seq<int>, taken: nat) {
    |data| == PIPESIZE && |q| <= PIPESIZE && forall k | 0 <= k < |q| :: data[(taken + k) % PIPESIZE] == q[k]
  }

  /** The low 9 bits of a counter survive its wrap-around. */
  lemma WrapSlot(x: nat)
    ensures x % WORD32 % PIPESIZE == x % PIPESIZE
  {
    var q := x / WORD32;
    assert x == WORD32 * q + x % WORD32;
    assert x == PIPESIZE * (8388608 * q) + x % WORD32;
    AddMultiple(8388608 * q, x % WORD32);
  }

  lemma {:induction false} AddMultiple(m: nat, r: nat)
    ensures (PIPESIZE * m + r) % PIPESIZE == r % PIPESIZE
    decreases m
  {
    if m > 0 {
      AddMultiple(m - 1, r);
      assert PIPESIZE * m + r == PIPESIZE * (m - 1) + r + PIPESIZE;
    }
  }

  /** The tests for full and empty are exact although the counters wrap. */
  lemma WrapTests(sent: nat, taken: nat)
    requires taken <= sent <= taken + PIPESIZE
    ensures sent % WORD32 == (taken % WORD32 + PIPESIZE) % WORD32 <==> sent == taken + PIPESIZE
    ensures taken % WORD32 == sent % WORD32 <==> sent == taken
    ensures (sent % WORD32 + 1) % WORD32 == (sent + 1) % WORD32 && (taken % WORD32 + 1) % WORD32 == (taken + 1) % WORD32
  {
  }

  /** Slots of different queue positions are different. */
  lemma SlotsDiffer(taken: nat, a: nat, b: nat)
    requires a < b < a + PIPESIZE
    ensures (taken + a) % PIPESIZE != (taken + b) % PIPESIZE
  {
  }

  lemma PutHolds(data: seq<int>, q: seq<int>, taken: nat, c: int)
    requires Holds(data, q, taken) && |q| < PIPESIZE
    ensures Holds(data[(taken + |q|) % PIPESIZE := c], q + [c], taken)
  {
    var data', q' := data[(taken + |q|) % PIPESIZE := c], q + [c];
    forall k | 0 <= k < |q'| ensures data'[(taken + k) % PIPESIZE] == q'[k] {
      if k < |q| { SlotsDiffer(taken, k, |q|); }
    }
  }

  lemma GetHolds(data: seq<int>, q: seq<int>, taken: nat)
    requires Holds(data, q, taken) && |q| > 0
    ensures Holds(data, q[1..], taken + 1) && data[taken % PIPESIZE] == q[0]
  {
    var q' := q[1..];
    assert data[(taken + 0) % PIPESIZE] == q[0];
    forall k | 0 <= k < |q'| ensures data[(taken + 1 + k) % PIPESIZE] == q'[k] {
      assert taken + 1 + k == taken + (k + 1);
      assert data[(taken + (k + 1)) % PIPESIZE] == q[k + 1];
    }
  }

  class Ring {
    const data: array<int>
    var nread: nat
    var nwrite: nat
    var readopen: bool
    ghost var sent: seq<int>       // every byte ever put in
    ghost var taken: seq<int>      // every byte ever taken out

    ghost predicate Valid()
      reads this, data
    {
      && data.Length == PIPESIZE
      && |taken| <= |sent| <= |taken| + PIPESIZE && taken <= sent
      && nwrite == |sent| % WORD32 && nread == |taken| % WORD32
      && Holds(data[..], sent[|taken|..], |taken|)
    }

    constructor ()
      ensures Valid() && fresh(data) && sent == [] && taken == [] && readopen
    {
      data := new int[PIPESIZE];
      nread, nwrite, readopen, sent, taken := 0, 0, true, [], [];
    }

    /** pipewrite's loop up to the point where it must sleep or stop; `src` are the source bytes that can be read. */
    method Put(src: seq<int>, n: nat) returns (i: nat)
      requires Valid()
      modifies this`nwrite, this`sent, data
      ensures i <= n && i <= |src| && Valid() && sent == old(sent) + src[..i]
      ensures i == n || i == |src| || !readopen || |sent| == |taken| + PIPESIZE
      ensures !readopen ==> i == 0
    {
      i := 0;
      while i < n
        invariant i <= n && i <= |src| && Valid() && sent == old(sent) + src[..i] && (!readopen ==> i == 0)
      {
        if !readopen { return; }
        WrapTests(|sent|, |taken|);
        if nwrite == (nread + PIPESIZE) % WORD32 { return; }
        if i == |src| { return; }
        WrapSlot(|sent|);
        PutHolds(data[..], sent[|taken|..], |taken|, src[i]);
        data[nwrite % PIPESIZE] := src[i];
        nwrite := (nwrite + 1) % WORD32;
        assert (sent + [src[i]])[|taken|..] == sent[|taken|..] + [src[i]];
        assert src[..i + 1] == src[..i] + [src[i]];
        sent := sent + [src[i]];
        i := i + 1;
      }
    }

    /** piperead's copying loop; at most `room` bytes can be stored at the destination. */
    method Get(n: nat, room: nat) returns (i: nat, out: seq<int>)
      requires Valid()
      modifies this`nread, this`taken
      ensures i <= n && i <= room && |old(taken)| + i <= |sent|
      ensures Valid() && out == sent[|old(taken)|..|old(taken)| + i]
      ensures i == n || i == room || |old(taken)| + i == |sent|
      ensures taken == sent[..|old(taken)| + i + if i < n && i == room && |old(taken)| + i < |sent| then 1 else 0]
    {
      i, out := 0, [];
      while i < n
        invariant i <= n && i <= room && Valid() && |old(taken)| + i == |taken| <= |sent| && taken == sent[..|taken|]
        invariant out == sent[|old(taken)|..|taken|]
      {
        WrapTests(|sent|, |taken|);
        if nread == nwrite { return; }
        WrapSlot(|taken|);
        GetHolds(data[..], sent[|taken|..], |taken|);
        var ch := data[nread % PIPESIZE];
        nread := (nread + 1) % WORD32;
        assert sent[|taken|..][1..] == sent[|taken| + 1..];
        taken := taken + [sent[|taken|]];
        if i == room { return; }
        out := out + [ch];
        i := i + 1;
      }
    }
  }
}
