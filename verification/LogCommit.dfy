/** From the last end_op to the end of its commit: the committer's steps, one run, and what is durable then. */
module LogCommit {
  import opened Option
  import opened Params
  import opened LogDisk
  import opened LogSystem

  /** end_op: exactly that call leaves; the last one makes its thread the committer of everything logged. */
  lemma EndStarts(s: State, o: nat)
    requires Inv(s) && CanEnd(s, o)
    ensures var s' := Apply(s, End(o));
      && s'.ops == s.ops[..o] + s.ops[o + 1..] && s' == s.(ops := s'.ops, committer := s'.committer, base := s'.base,
                                                             phase := s'.phase)
      && if |s.ops| == 1
         then
           && s'.ops == [] && s'.committer == Some(s.ops[0].tid) && s'.base == s.disk
           && s'.phase == if s.lh == [] then Finished else Logging(0)
         else s'.committer == None && s'.phase == NoCommit
  {
    hide CacheInv, DiskInv;
  }

  // ---- taking and giving back a buffer ----

  /** All but the buffers is the same. */
  ghost predicate OnlyCache(s: State, s': State) { s' == s.(bufs := s'.bufs) && |s'.bufs| == |s.bufs| }

  /** Nobody holds the buffer of block `b`, or it is not cached and some buffer is free. */
  ghost predicate Gettable(s: State, t: nat, b: int) {
    && 0 <= b < s.g.total
    && (forall i | 0 <= i < |s.bufs| && s.bufs[i].key == Some(b) :: t !in s.bufs[i].users && s.bufs[i].holder == None)
    && exists i :: 0 <= i < |s.bufs| && (s.bufs[i].key == Some(b) || s.bufs[i].refcnt == 0)
  }

  /** Buffer `x` after thread t has taken and locked it for block b: x' is valid and t's. */
  ghost predicate Taken(x: Buf, x': Buf, t: nat, b: int) {
    && x'.key == Some(b) && x'.valid && x'.holder == Some(t)
    && (if x.key == Some(b)
        then x'.users == x.users + {t} && x'.refcnt == x.refcnt + 1 && x.holder == None && t !in x.users
        else x.refcnt == 0 && x'.users == {t} && x'.refcnt == 1)
  }

  /** bread by the committer. */
  lemma Bread(s: State, t: nat, b: int) returns (steps: seq<Step>, s': State, i: nat)
    requires Inv(s) && s.committer == Some(t) && Gettable(s, t, b)
    ensures Runs(s, steps, s') && Inv(s') && OnlyCache(s, s') && i < |s.bufs| && Taken(s.bufs[i], s'.bufs[i], t, b)
    ensures s'.bufs == s.bufs[i := s'.bufs[i]] && Holds(s', t, i, b)
  {
    hide OpsInv, DiskInv, CacheInv;
    i := Choose(s, t, b);
    var s1 := DoGet(s, t, b, i);
    assert s1.bufs[i].holder == None && t in s1.bufs[i].users;
    var s2 := DoLock(s1, t, i);
    OneStep(s, Get(t, b, i));
    OneStep(s1, Lock(t, i));
    RunsAppend(s, [Get(t, b, i)], s1, [Lock(t, i)], s2);
    steps, s' := [Get(t, b, i)] + [Lock(t, i)], s2;
    if !s2.bufs[i].valid {
      InDisk(s, b);
      var s3 := DoFill(s2, t, i);
      OneStep(s2, Fill(t, i));
      RunsAppend(s, steps, s2, [Fill(t, i)], s3);
      steps, s' := steps + [Fill(t, i)], s3;
    }
    RunInv(s, steps, s');
    NoneDirty(s', i, b);
  }

  lemma InDisk(s: State, b: int)
    requires Inv(s) && 0 <= b < s.g.total
    ensures b in s.disk
  {
  }

  lemma Choose(s: State, t: nat, b: int) returns (i: nat)
    requires Inv(s) && s.committer == Some(t) && Gettable(s, t, b)
    ensures CanGet(s, t, b, i) && (s.bufs[i].key == Some(b) ==> s.bufs[i].holder == None)
  {
    hide OpsInv, DiskInv;
    if j :| 0 <= j < |s.bufs| && s.bufs[j].key == Some(b) {
      i := j;
    } else {
      i :| 0 <= i < |s.bufs| && s.bufs[i].refcnt == 0;
      assert BufOk(s, i);
    }
  }

  /** brelse by its holder. */
  lemma Brelse(s: State, t: nat, i: nat) returns (steps: seq<Step>, s': State)
    requires Inv(s) && s.committer.Some? && i < |s.bufs| && s.bufs[i].holder == Some(t) && s.bufs[i].valid
    ensures Runs(s, steps, s') && Inv(s') && OnlyCache(s, s') && s.bufs[i].refcnt > 0
    ensures s'.bufs == s.bufs[i := s.bufs[i].(holder := None, users := s.bufs[i].users - {t},
                                              refcnt := s.bufs[i].refcnt - 1)]
  {
    hide Inv, Runs;
    HolderFacts(s, t, i);
    var s1;
    s1, s' := LetGo(s, t, i);
    steps := [Unlock(t, i)] + [Drop(t, i)];
    RunsAppend(s, [Unlock(t, i)], s1, [Drop(t, i)], s');
    RunInv(s, steps, s');
  }

  lemma LetGo(s: State, t: nat, i: nat) returns (s1: State, s': State)
    requires i < |s.bufs| && s.bufs[i].holder == Some(t) && !s.bufs[i].dirty
    requires t in s.bufs[i].users && s.bufs[i].refcnt > 0
    ensures Runs(s, [Unlock(t, i)], s1) && Runs(s1, [Drop(t, i)], s') && OnlyCache(s, s')
    ensures s'.bufs == s.bufs[i := s.bufs[i].(holder := None, users := s.bufs[i].users - {t},
                                              refcnt := s.bufs[i].refcnt - 1)]
  {
    s1 := DoUnlock(s, t, i);
    OneStep(s, Unlock(t, i));
    s' := DoDrop(s1, t, i);
    OneStep(s1, Drop(t, i));
  }

  lemma HolderFacts(s: State, t: nat, i: nat)
    requires Inv(s) && s.committer.Some? && i < |s.bufs| && s.bufs[i].holder == Some(t) && s.bufs[i].valid
    ensures t in s.bufs[i].users && s.bufs[i].refcnt > 0 && !s.bufs[i].dirty
  {
    hide DiskInv;
    assert BufOk(s, i);
    assert {t} <= s.bufs[i].users;
  }

  // ---- one turn of each loop ----

  /** A buffer the commit works on: a log block or a logged home block. */
  predicate Needed(s: State, x: Buf) { x.key.Some? && (InLog(s.g, x.key.value) || x.key.value in s.lh) }

  /** Thread `t` uses no buffer, nobody holds one that a commit needs, and one buffer is free. */
  ghost predicate Clear(s: State, t: nat) {
    && (forall i | 0 <= i < |s.bufs| :: t !in s.bufs[i].users && (Needed(s, s.bufs[i]) ==> s.bufs[i].holder == None))
    && exists i :: 0 <= i < |s.bufs| && s.bufs[i].refcnt == 0
  }

  ghost predicate Ready(s: State, t: nat) { Inv(s) && s.committer == Some(t) && Clear(s, t) }

  /** The buffer as it was, perhaps unpinned, or a free one that was used for another block. */
  predicate Restored(x: Buf, x': Buf) {
    || (x'.key == x.key && x'.users == x.users && x'.holder == x.holder && x'.refcnt <= x.refcnt)
    || (x.refcnt == 0 && x'.refcnt == 0 && x'.users == {} && x'.holder == None)
  }

  lemma ReadyAgain(s: State, s': State, t: nat)
    requires Ready(s, t) && Inv(s') && s'.committer == s.committer && s'.g == s.g && (s'.lh == s.lh || s'.lh == [])
    requires |s'.bufs| == |s.bufs| && forall i | 0 <= i < |s.bufs| :: Restored(s.bufs[i], s'.bufs[i])
    ensures Ready(s', t)
  {
    hide Inv;
    var z :| 0 <= z < |s.bufs| && s.bufs[z].refcnt == 0;
    assert Restored(s.bufs[z], s'.bufs[z]);
  }

  /** A log block can be taken. */
  lemma GetLog(s: State, t: nat, b: int)
    requires Ready(s, t) && InLog(s.g, b) && 0 <= b < s.g.total
    ensures Gettable(s, t, b)
  {
    hide Inv;
  }

  /** A logged home block that is still pinned is in the cache. */
  lemma GetHome(s: State, s1: State, t: nat, d: nat, b: int)
    requires Ready(s, t) && b in Pinned(s) && d < |s.bufs| && OnlyCache(s, s1) && s1.bufs == s.bufs[d := s1.bufs[d]]
    requires s1.bufs[d].key != Some(b) && s.bufs[d].key != Some(b)
    ensures Gettable(s1, t, b)
  {
    hide OpsInv, DiskInv;
    PinnedHome(s);
    var i :| 0 <= i < |s.bufs| && s.bufs[i].key == Some(b) && s.bufs[i].valid;
    assert s1.bufs[i] == s.bufs[i] && BufOk(s, i);
  }

  /** Taken and given back: the buffer is restored. */
  lemma BackAgain(x: Buf, x1: Buf, x2: Buf, t: nat, b: int)
    requires Taken(x, x1, t, b)
    requires x2.key == x1.key && x2.users == x1.users - {t} && x2.holder == None && x2.refcnt <= x1.refcnt - 1
    ensures Restored(x, x2)
  {
    if x.key == Some(b) { assert x.users + {t} - {t} == x.users; } else { assert {t} - {t} == {}; }
  }

  /** A home block is not a free buffer while it is pinned. */
  lemma NotSpare(s: State, t: nat, b: int, d: nat)
    requires Ready(s, t) && b in Pinned(s) && d < |s.bufs| && (InLog(s.g, b) || s.bufs[d].key == Some(b))
    ensures !InLog(s.g, b) && s.bufs[d].refcnt > 0
  {
    hide OpsInv, DiskInv;
    PinnedHome(s);
    assert BufOk(s, d);
  }

  /** One turn of write_log. */
  lemma WriteOne(s: State, t: nat) returns (steps: seq<Step>, s': State)
    requires Ready(s, t) && s.phase.Logging? && s.phase.k < |s.lh|
    ensures Runs(s, steps, s') && Ready(s', t) && s'.phase == Logging(s.phase.k + 1)
    ensures s'.lh == s.lh && s'.logical == s.logical && s'.image == s.image && s'.g == s.g
  {
    hide Inv, Ready, Restored, Taken, Gettable;
    var k := s.phase.k;
    var b, h := s.g.start + 1 + k, s.lh[k];
    Places(s, t, k);
    GetLog(s, t, b);
    ReadyInv(s, t);
    var d, s1;
    steps, s1, d := Bread(s, t, b);
    TakenKey(s, s1, t, b, h, d);
    GetHome(s, s1, t, d, h);
    var more, s2, e := Bread(s1, t, h);
    RunsAppend(s, steps, s1, more, s2);
    steps := steps + more;
    Apart(s, s1, s2, t, b, h, d, e);
    var s3 := DoWriteLog(s2, d, e);
    OneStep(s2, WriteLogBlock(d, e));
    RunsAppend(s, steps, s2, [WriteLogBlock(d, e)], s3);
    steps := steps + [WriteLogBlock(d, e)];
    RunInv(s, steps, s3);
    var s4;
    more, s4 := Brelse(s3, t, e);
    RunsAppend(s, steps, s3, more, s4);
    steps := steps + more;
    more, s' := Brelse(s4, t, d);
    RunsAppend(s, steps, s4, more, s');
    steps := steps + more;
    Both(s, s1, s2, s', t, b, h, d, e);
    ReadyAgain(s, s', t);
  }

  lemma ReadyInv(s: State, t: nat)
    requires Ready(s, t)
    ensures Inv(s) && s.committer == Some(t)
  {
  }

  /** Block k of the header has its place in the log, and its home is elsewhere. */
  lemma Places(s: State, t: nat, k: nat)
    requires Ready(s, t) && k < |s.lh|
    ensures InLog(s.g, s.g.start + 1 + k) && 0 <= s.g.start + 1 + k < s.g.total && 0 <= s.lh[k] < s.g.total
    ensures !InLog(s.g, s.lh[k])
    ensures s.phase.Logging? || (s.phase.Installing? && s.phase.k == k) ==> s.lh[k] in Pinned(s)
  {
    hide CacheInv, DiskInv;
    if s.phase.Installing? && s.phase.k == k { assert s.lh[k..][0] == s.lh[k]; }
  }

  lemma TakenKey(s: State, s1: State, t: nat, b: int, h: int, d: nat)
    requires Ready(s, t) && d < |s.bufs| && |s1.bufs| == |s.bufs| && Taken(s.bufs[d], s1.bufs[d], t, b) && b != h
    requires h in Pinned(s)
    ensures s1.bufs[d].key != Some(h) && s.bufs[d].key != Some(h)
  {
    if s.bufs[d].key == Some(h) {
      NotSpare(s, t, h, d);
    }
  }

  lemma Apart(s: State, s1: State, s2: State, t: nat, b: int, h: int, d: nat, e: nat)
    requires d < |s.bufs| == |s1.bufs| == |s2.bufs| && e < |s1.bufs| && b != h && s2.bufs == s1.bufs[e := s2.bufs[e]]
    requires Taken(s.bufs[d], s1.bufs[d], t, b) && Taken(s1.bufs[e], s2.bufs[e], t, h)
    requires Holds(s1, t, d, b)
    ensures d != e && s2.bufs[d] == s1.bufs[d] && Holds(s2, t, d, b)
  {
  }

  lemma Both(s: State, s1: State, s2: State, s': State, t: nat, b: int, h: int, d: nat, e: nat)
    requires |s.bufs| == |s1.bufs| == |s2.bufs| == |s'.bufs| && d < |s.bufs| && e < |s.bufs| && d != e
    requires s1.bufs == s.bufs[d := s1.bufs[d]] && s2.bufs == s1.bufs[e := s2.bufs[e]]
    requires Taken(s.bufs[d], s1.bufs[d], t, b) && Taken(s1.bufs[e], s2.bufs[e], t, h)
    requires forall i | 0 <= i < |s.bufs| && i != d && i != e :: s'.bufs[i] == s2.bufs[i]
    requires forall i | i in {d, e} ::
      && s'.bufs[i].key == s2.bufs[i].key && s'.bufs[i].users == s2.bufs[i].users - {t} && s'.bufs[i].holder == None
      && s'.bufs[i].refcnt <= s2.bufs[i].refcnt - 1
    ensures forall i | 0 <= i < |s.bufs| :: Restored(s.bufs[i], s'.bufs[i])
  {
    hide Taken;
    forall i | 0 <= i < |s.bufs| ensures Restored(s.bufs[i], s'.bufs[i]) {
      if i == d {
        BackAgain(s.bufs[d], s1.bufs[d], s'.bufs[d], t, b);
      } else if i == e {
        BackAgain(s.bufs[e], s2.bufs[e], s'.bufs[e], t, h);
      }
    }
  }

  /** One turn of install_trans. */
  lemma InstallOne(s: State, t: nat) returns (steps: seq<Step>, s': State)
    requires Ready(s, t) && s.phase.Installing? && s.phase.k < |s.lh|
    ensures Runs(s, steps, s') && Ready(s', t) && s'.phase == Installing(s.phase.k + 1)
    ensures s'.lh == s.lh && s'.logical == s.logical && s'.image == s.image && s'.g == s.g
  {
    hide Inv, Ready, Restored, Taken, Gettable;
    var k := s.phase.k;
    var b, h := s.g.start + 1 + k, s.lh[k];
    Places(s, t, k);
    GetLog(s, t, b);
    ReadyInv(s, t);
    var d, s1;
    steps, s1, d := Bread(s, t, b);
    TakenKey(s, s1, t, b, h, d);
    GetHome(s, s1, t, d, h);
    var more, s2, e := Bread(s1, t, h);
    RunsAppend(s, steps, s1, more, s2);
    steps := steps + more;
    Apart(s, s1, s2, t, b, h, d, e);
    HolderFacts(s2, t, e);
    var s3 := DoInstall(s2, d, e);
    OneStep(s2, InstallBlock(d, e));
    RunsAppend(s, steps, s2, [InstallBlock(d, e)], s3);
    steps := steps + [InstallBlock(d, e)];
    RunInv(s, steps, s3);
    var s4;
    more, s4 := Brelse(s3, t, d);
    RunsAppend(s, steps, s3, more, s4);
    steps := steps + more;
    more, s' := Brelse(s4, t, e);
    RunsAppend(s, steps, s4, more, s');
    steps := steps + more;
    Both(s, s1, s2, s', t, b, h, d, e);
    ReadyAgain(s, s', t);
  }

  /** The header writes: the one that commits, and the one that clears. */
  lemma HeadOne(s: State, t: nat) returns (steps: seq<Step>, s': State)
    requires Ready(s, t) && (s.phase == Logging(|s.lh|) || s.phase.Clearing?)
    ensures Runs(s, steps, s') && Ready(s', t) && s'.lh == s.lh && s'.logical == s.logical && s'.g == s.g
    ensures if s.phase.Logging? then s'.phase == Installing(0) && s'.image == s.logical
            else s'.phase == Finished && s'.image == s.image
  {
    hide Inv, Ready, Restored, Taken, Gettable, Encode;
    var b := s.g.start;
    ReadyInv(s, t);
    HeadPlace(s, t);
    GetLog(s, t, b);
    var d, s1;
    steps, s1, d := Bread(s, t, b);
    var st := if s.phase.Logging? then CommitHead(d) else ClearHead(d);
    var s2 := if s.phase.Logging? then DoCommitHead(s1, d) else DoClearHead(s1, d);
    OneStep(s1, st);
    RunsAppend(s, steps, s1, [st], s2);
    steps := steps + [st];
    RunInv(s, steps, s2);
    var more;
    more, s' := Brelse(s2, t, d);
    RunsAppend(s, steps, s2, more, s');
    steps := steps + more;
    forall i | 0 <= i < |s.bufs| ensures Restored(s.bufs[i], s'.bufs[i]) {
      if i == d { BackAgain(s.bufs[d], s1.bufs[d], s'.bufs[d], t, b); } else { SameRestored(s.bufs[i]); }
    }
    ReadyAgain(s, s', t);
  }

  lemma SameRestored(x: Buf)
    ensures Restored(x, x)
  {
  }

  lemma HeadPlace(s: State, t: nat)
    requires Ready(s, t)
    ensures InLog(s.g, s.g.start) && 0 <= s.g.start < s.g.total && |s.lh| <= LOGSIZE
  {
    hide CacheInv, DiskInv;
  }

  // ---- the whole commit ----

  lemma {:induction false} WriteAll(s: State, t: nat) returns (steps: seq<Step>, s': State)
    requires Ready(s, t) && s.phase.Logging? && s.phase.k <= |s.lh|
    ensures Runs(s, steps, s') && Ready(s', t) && s'.phase == Logging(|s.lh|)
    ensures s'.lh == s.lh && s'.logical == s.logical && s'.image == s.image && s'.g == s.g
    decreases |s.lh| - s.phase.k
  {
    hide Ready;
    steps, s' := [], s;
    if s.phase.k < |s.lh| {
      var a, s1 := WriteOne(s, t);
      var b;
      b, s' := WriteAll(s1, t);
      RunsAppend(s, a, s1, b, s');
      steps := a + b;
    }
  }

  lemma {:induction false} InstallAll(s: State, t: nat) returns (steps: seq<Step>, s': State)
    requires Ready(s, t) && s.phase.Installing? && s.phase.k <= |s.lh|
    ensures Runs(s, steps, s') && Ready(s', t) && s'.phase == Installing(|s.lh|)
    ensures s'.lh == s.lh && s'.logical == s.logical && s'.image == s.image && s'.g == s.g
    decreases |s.lh| - s.phase.k
  {
    hide Ready;
    steps, s' := [], s;
    if s.phase.k < |s.lh| {
      var a, s1 := InstallOne(s, t);
      var b;
      b, s' := InstallAll(s1, t);
      RunsAppend(s, a, s1, b, s');
      steps := a + b;
    }
  }

  /** log.lh.n = 0, the clearing header write, and log.committing = 0. */
  lemma ClearAll(s: State, t: nat) returns (steps: seq<Step>, s': State)
    requires Ready(s, t) && (s.phase == Installing(|s.lh|) || s.phase.Clearing? || s.phase.Finished?)
    ensures Runs(s, steps, s') && Inv(s') && s'.phase == NoCommit && s'.committer == None && s'.lh == []
    ensures s'.logical == s.logical && s'.image == s.image && s'.g == s.g
  {
    hide Ready, Inv;
    steps, s' := [], s;
    PhaseBound(s, t);
    if s'.phase.Installing? {
      var s1 := Forgotten(s', t);
      RunsAppend(s, steps, s', [ForgetBlocks], s1);
      steps, s' := steps + [ForgetBlocks], s1;
    }
    if s'.phase.Clearing? {
      var more, s2 := HeadOne(s', t);
      RunsAppend(s, steps, s', more, s2);
      steps, s' := steps + more, s2;
    }
    var s3 := DoFinish(s');
    OneStep(s', Finish);
    RunsAppend(s, steps, s', [Finish], s3);
    steps, s' := steps + [Finish], s3;
    ReadyInv(s, t);
    RunInv(s, steps, s');
  }

  lemma Forgotten(s: State, t: nat) returns (s': State)
    requires Ready(s, t) && s.phase == Installing(|s.lh|)
    ensures Runs(s, [ForgetBlocks], s') && Ready(s', t) && s'.phase.Clearing? && s'.logical == s.logical
    ensures s'.image == s.image && s'.g == s.g && s'.lh == []
  {
    hide Inv;
    s' := DoForget(s);
    OneStep(s, ForgetBlocks);
    RunInv(s, [ForgetBlocks], s');
    ReadyAgain(s, s', t);
  }

  /** What Inv says of a system without a commit and without pins. */
  lemma QuietDisk(s: State)
    requires Inv(s) && s.phase == NoCommit && s.lh == []
    ensures DiskOk(s.g, s.disk) && DiskOk(s.g, s.image) && DiskOk(s.g, s.logical)
    ensures HeadIs(s.g, s.disk, []) && SameHome(s.g, s.disk, s.image) && SameHome(s.g, s.image, s.logical)
  {
    hide CacheInv;
  }

  /** From every state with a committer that can get its buffers, whatever the phase, its steps lead to the end of the
      commit: the log is empty and everything logged is at home. */
  lemma CommitFinishes(s: State, t: nat) returns (steps: seq<Step>, s': State)
    requires Ready(s, t)
    ensures Runs(s, steps, s') && Inv(s') && s'.phase == NoCommit && s'.committer == None && s'.lh == []
    ensures s'.logical == s.logical && s'.g == s.g
    ensures DiskOk(s.g, s'.disk) && DiskOk(s.g, s'.image) && DiskOk(s.g, s.logical)
    ensures SameHome(s.g, s'.disk, s.logical) && SameHome(s.g, s'.image, s.logical) && HeadIs(s.g, s'.disk, [])
  {
    hide Ready, Inv;
    steps, s' := [], s;
    PhaseBound(s, t);
    if s'.phase.Logging? {
      var a, s1 := WriteAll(s', t);
      var b, s2 := HeadOne(s1, t);
      RunsAppend(s, a, s1, b, s2);
      steps, s' := a + b, s2;
    }
    if s'.phase.Installing? {
      var a, s1 := InstallAll(s', t);
      RunsAppend(s, steps, s', a, s1);
      steps, s' := steps + a, s1;
    }
    var c, s4 := ClearAll(s', t);
    RunsAppend(s, steps, s', c, s4);
    steps, s' := steps + c, s4;
    QuietDisk(s');
    SameHomeTrans(s.g, s'.disk, s'.image, s'.logical);
  }

  /** The last end_op: its thread's steps lead to a state in which everything that was logged is durable, whatever
      crashes follow. */
  lemma EndDurable(s: State, o: nat, crashes: seq<nat>) returns (steps: seq<Step>, s': State)
    requires Inv(s) && CanEnd(s, o) && |s.ops| == 1 && Clear(s, s.ops[0].tid)
    ensures Runs(s, steps, s') && steps != [] && steps[0] == End(o)
    ensures Inv(s') && s'.phase == NoCommit && s'.lh == [] && s'.logical == s.logical && s'.g == s.g
    ensures DiskOk(s.g, s.logical) && Bootable(s.g, s'.disk)
    ensures SameHome(s.g, Recovered(s.g, Boots(s.g, s'.disk, crashes)), s.logical)
  {
    hide Inv, CanEnd, Clear, Runs, DiskOk, SameHome, Ready, Bootable;
    var s1 := EndReady(s, o);
    var more;
    more, s' := CommitFinishes(s1, s.ops[0].tid);
    RunsAppend(s, [End(o)], s1, more, s');
    steps := [End(o)] + more;
    HomeAgain(s', s.logical, crashes);
  }

  lemma EndReady(s: State, o: nat) returns (s1: State)
    requires Inv(s) && CanEnd(s, o) && |s.ops| == 1 && Clear(s, s.ops[0].tid)
    ensures Runs(s, [End(o)], s1) && Ready(s1, s.ops[0].tid) && s1.logical == s.logical && s1.g == s.g
  {
    EndStarts(s, o);
    OneStep(s, End(o));
    s1 := Apply(s, End(o));
    RunInv(s, [End(o)], s1);
    hide Inv, CanEnd, Enabled, Apply;
    assert s1.bufs == s.bufs && s1.lh == s.lh && s1.g == s.g;
  }

  lemma HomeAgain(s: State, homes: Disk, crashes: seq<nat>)
    requires Inv(s) && DiskOk(s.g, s.image) && DiskOk(s.g, homes) && SameHome(s.g, s.image, homes)
    ensures Bootable(s.g, s.disk) && SameHome(s.g, Recovered(s.g, Boots(s.g, s.disk, crashes)), homes)
  {
    CrashSafe(s, crashes);
    SameHomeTrans(s.g, Recovered(s.g, Boots(s.g, s.disk, crashes)), s.image, homes);
  }

  lemma PhaseBound(s: State, t: nat)
    requires Ready(s, t)
    ensures s.phase.Logging? || s.phase.Installing? ==> s.phase.k <= |s.lh|
    ensures !s.phase.NoCommit? && (s.phase.Clearing? || s.phase.Finished? ==> s.lh == [])
  {
    hide CacheInv;
  }

  // ---- one block changed ----

  /** `s` after call `o` has put `data` into the block of its buffer `i`, logged it and released the buffer: the logged
      contents change in exactly that block, to exactly that data. */
  ghost predicate Updated(s: State, s': State, o: nat, i: nat, data: Block) {
    && o < |s.ops| && i < |s.bufs| && |s'.bufs| == |s.bufs| && s.bufs[i].key.Some? && |s'.ops| == |s.ops|
    && var b := s.bufs[i].key.value;
    && s' == s.(bufs := s'.bufs, lh := s'.lh, ops := s'.ops, logical := s'.logical)
    && s'.logical == s.logical[b := data] && s'.lh == (if b in s.lh then s.lh else s.lh + [b])
    && (forall p | 0 <= p < |s.ops| :: s'.ops[p].tid == s.ops[p].tid)
    && s'.bufs == s.bufs[i := s'.bufs[i]] && s'.bufs[i].key == s.bufs[i].key && s'.bufs[i].holder == None
    && s'.bufs[i].users == s.bufs[i].users - {s.ops[o].tid}
  }

  /** A call's change of one home block, from the store into the buffer to brelse. */
  lemma Update(s: State, o: nat, i: nat, data: Block) returns (steps: seq<Step>, s': State)
    requires Inv(s) && CanLog(s, o, i) && CanModify(s, s.ops[o].tid, i, data)
    ensures steps == [Modify(s.ops[o].tid, i, data), LogWrite(o, i), Unlock(s.ops[o].tid, i), Drop(s.ops[o].tid, i)]
    ensures Runs(s, steps, s') && Inv(s') && Updated(s, s', o, i, data)
  {
    hide Inv, Updated, CanModify, Runs;
    var t := s.ops[o].tid;
    HolderUses(s, t, i);
    var s1, s2 := Stored(s, o, i, data);
    var s3;
    s3, s' := GivenBack(s, s2, o, i, data);
    RunsAppend(s, [Modify(t, i, data)], s1, [LogWrite(o, i)], s2);
    steps := [Modify(t, i, data)] + [LogWrite(o, i)];
    RunsAppend(s, steps, s2, [Unlock(t, i)], s3);
    steps := steps + [Unlock(t, i)];
    RunsAppend(s, steps, s3, [Drop(t, i)], s');
    steps := steps + [Drop(t, i)];
    RunInv(s, steps, s');
  }

  lemma Stored(s: State, o: nat, i: nat, data: Block) returns (s1: State, s2: State)
    requires Inv(s) && CanLog(s, o, i) && CanModify(s, s.ops[o].tid, i, data)
    ensures Runs(s, [Modify(s.ops[o].tid, i, data)], s1) && Runs(s1, [LogWrite(o, i)], s2)
    ensures |s2.bufs| == |s.bufs| && |s2.ops| == |s.ops| && s2.bufs == s.bufs[i := s2.bufs[i]]
    ensures !s2.bufs[i].dirty && s2.bufs[i].holder == Some(s.ops[o].tid) && s2.bufs[i].users == s.bufs[i].users
    ensures s2.bufs[i].refcnt >= s.bufs[i].refcnt && s2.bufs[i].key == s.bufs[i].key
    ensures s2 == s.(bufs := s2.bufs, lh := s2.lh, ops := s2.ops, logical := s2.logical)
    ensures s2.logical == s.logical[s.bufs[i].key.value := data]
    ensures s2.lh == if s.bufs[i].key.value in s.lh then s.lh else s.lh + [s.bufs[i].key.value]
    ensures forall p | 0 <= p < |s.ops| :: s2.ops[p].tid == s.ops[p].tid
  {
    hide Inv;
    s1 := DoModify(s, s.ops[o].tid, i, data);
    OneStep(s, Modify(s.ops[o].tid, i, data));
    s2 := DoLog(s1, o, i);
    OneStep(s1, LogWrite(o, i));
  }

  lemma GivenBack(s: State, s2: State, o: nat, i: nat, data: Block) returns (s3: State, s': State)
    requires o < |s.ops| && i < |s.bufs| && s.bufs[i].key.Some?
    requires |s2.bufs| == |s.bufs| && |s2.ops| == |s.ops| && s2.bufs == s.bufs[i := s2.bufs[i]]
    requires s2.bufs[i].users == s.bufs[i].users && s2.bufs[i].key == s.bufs[i].key
    requires s2 == s.(bufs := s2.bufs, lh := s2.lh, ops := s2.ops, logical := s2.logical)
    requires s2.logical == s.logical[s.bufs[i].key.value := data]
    requires s2.lh == if s.bufs[i].key.value in s.lh then s.lh else s.lh + [s.bufs[i].key.value]
    requires forall p | 0 <= p < |s.ops| :: s2.ops[p].tid == s.ops[p].tid
    requires s2.bufs[i].holder == Some(s.ops[o].tid) && !s2.bufs[i].dirty
    requires s.ops[o].tid in s2.bufs[i].users && s2.bufs[i].refcnt > 0
    ensures Runs(s2, [Unlock(s.ops[o].tid, i)], s3) && Runs(s3, [Drop(s.ops[o].tid, i)], s')
    ensures Updated(s, s', o, i, data)
  {
    s3, s' := LetGo(s2, s.ops[o].tid, i);
    assert s'.bufs == s.bufs[i := s'.bufs[i]];
  }

  lemma HolderUses(s: State, t: nat, i: nat)
    requires Inv(s) && i < |s.bufs| && s.bufs[i].holder == Some(t)
    ensures t in s.bufs[i].users && s.bufs[i].refcnt > 0
  {
    hide OpsInv, DiskInv;
    assert BufOk(s, i);
    assert {t} <= s.bufs[i].users;
  }

  /** Thread `t` uses buffer `i` alone, nobody holds another that a commit needs, and another one is free. */
  ghost predicate ClearBut(s: State, t: nat, i: nat) {
    && (forall j | 0 <= j < |s.bufs| && j != i ::
          t !in s.bufs[j].users && (Needed(s, s.bufs[j]) ==> s.bufs[j].holder == None))
    && exists j :: 0 <= j < |s.bufs| && j != i && s.bufs[j].refcnt == 0
  }

  /** The only call changes one block and ends: its steps lead to a state from which every crash comes back with the
      old logged contents and that block's new data. */
  lemma UpdateDurable(s: State, i: nat, data: Block, crashes: seq<nat>) returns (steps: seq<Step>, s': State)
    requires Inv(s) && |s.ops| == 1 && CanLog(s, 0, i) && CanModify(s, s.ops[0].tid, i, data)
    requires s.committer == None && ClearBut(s, s.ops[0].tid, i)
    ensures Runs(s, steps, s') && |steps| > 4 && steps[0] == Modify(s.ops[0].tid, i, data) && steps[4] == End(0)
    ensures Inv(s') && s'.phase == NoCommit && s'.lh == [] && s'.g == s.g
    ensures DiskOk(s.g, s.logical[s.bufs[i].key.value := data]) && Bootable(s.g, s'.disk)
    ensures SameHome(s.g, Recovered(s.g, Boots(s.g, s'.disk, crashes)), s.logical[s.bufs[i].key.value := data])
  {
    var t := s.ops[0].tid;
    var s1;
    steps, s1 := Update(s, 0, i, data);
    UpdateClear(s, s1, t, i, data);
    var more;
    more, s' := EndDurable(s1, 0, crashes);
    RunsAppend(s, steps, s1, more, s');
    steps := steps + more;
  }

  lemma UpdateClear(s: State, s1: State, t: nat, i: nat, data: Block)
    requires Inv(s) && Inv(s1) && Updated(s, s1, 0, i, data) && s.ops[0].tid == t
    requires s.committer == None && ClearBut(s, t, i)
    ensures Clear(s1, t) && CanEnd(s1, 0)
  {
    hide OpsInv, DiskInv;
    var b := s.bufs[i].key.value;
    forall j | 0 <= j < |s1.bufs|
      ensures t !in s1.bufs[j].users && s1.bufs[j].holder != Some(t)
      ensures Needed(s1, s1.bufs[j]) ==> s1.bufs[j].holder == None
    {
      assert BufOk(s1, j);
      if j != i {
        assert s1.bufs[j] == s.bufs[j] && s.bufs[j].key != Some(b);
      }
    }
    var z :| 0 <= z < |s.bufs| && z != i && s.bufs[z].refcnt == 0;
    assert s1.bufs[z].refcnt == 0;
  }
}
